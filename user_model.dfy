/** The `User` schema: its field validators, its setters and defaults, and the
    pre-save hook that hashes a modified password. A document is what
    `new User(...)` or `User.findOne(...)` hands the controller; a record is
    what the collection stores. */
module UserModel {
  import opened Wrappers
  import opened JsText
  import Bcrypt

  type UserId = nat

  /** `min: 13` on `age`. */
  const MinAge: int := 13

  /** `^\S+@\S+\.\S+$`: no white space anywhere, and an '@' with at least one
      character before it, followed (after at least one character) by a '.'
      with at least one character after it. */
  predicate EmailPattern(s: string)
  {
    && !HasSpace(s)
    && exists i, j :: 1 <= i && i + 2 <= j && j + 2 <= |s| && s[i] == '@' && s[j] == '.'
  }

  /** `^(?=.*[A-Z])(?=.*\d)(?=.*[^A-Za-z0-9]).{8,}$`: `.` matches no line
      terminator, so the whole password must be free of them and at least 8
      long; the look-aheads ask for an upper-case letter, a digit and a
      character that is neither a letter nor a digit. */
  predicate PasswordPattern(s: string)
  {
    !HasLineTerminator(s) && |s| >= 8 && HasUpper(s) && HasDigit(s) && HasNonAlnum(s)
  }

  /** The value of the `password` path: the plain text a request assigned, or
      the bcrypt digest the hook stored. */
  datatype PasswordValue = Plain(text: string) | Hashed(digest: Bcrypt.Digest)

  datatype UserField = Name | LastName | Age | Email | Password

  /** A document's paths (`None`: absent), whether `password` was modified
      since it was loaded, and the reset marker. */
  datatype UserDoc = UserDoc(
    name: Option<string>,
    lastName: Option<string>,
    age: Option<int>,
    email: Option<string>,
    password: Option<PasswordValue>,
    passwordModified: bool,
    resetPasswordJti: Option<string>)

  /** A stored user. */
  datatype UserRecord = UserRecord(
    name: string,
    lastName: string,
    age: int,
    email: string,
    passwordHash: Bcrypt.Digest,
    resetPasswordJti: Option<string>)

  function MapOpt(o: Option<string>, f: string -> string): Option<string>
  {
    match o
    case None => None
    case Some(s) => Some(f(s))
  }

  /** `new User({ name, lastName, age, email, password })`: the `trim` setter on
      the name and the `lowercase` setter on the e-mail run on assignment,
      `resetPasswordJti` takes its default `null`, and the password is plain and
      counts as modified. */
  function NewUserDoc(name: Option<string>, lastName: Option<string>, age: Option<int>,
                      email: Option<string>, password: Option<string>): (d: UserDoc)
    ensures d.resetPasswordJti == None
    ensures d.passwordModified
    ensures d.email.Some? <==> email.Some?
    ensures d.email.Some? ==> d.email.value == ToLower(email.value) && !HasUpper(d.email.value)
    ensures d.name.Some? <==> name.Some?
    ensures d.name.Some? ==> d.name.value == Trim(name.value)
    ensures d.lastName == lastName && d.age == age
    ensures d.password.Some? <==> password.Some?
    ensures d.password.Some? ==> d.password.value == Plain(password.value)
  {
    var lower := MapOpt(email, ToLower);
    assert lower.Some? ==> !HasUpper(lower.value);
    UserDoc(MapOpt(name, Trim), lastName, age, lower,
            if password.Some? then Some(Plain(password.value)) else None,
            true, None)
  }

  // ------------------------------------------------------------ validators

  /** `required` on the (trimmed) name. */
  predicate NameOk(d: UserDoc) { d.name.Some? && d.name.value != "" }
  /** `required` on the last name, which is not trimmed. */
  predicate LastNameOk(d: UserDoc) { d.lastName.Some? && d.lastName.value != "" }
  /** `required` and `min: 13`. */
  predicate AgeOk(d: UserDoc) { d.age.Some? && d.age.value >= MinAge }
  /** `required` and `match` on the (lower-cased) e-mail. */
  predicate EmailOk(d: UserDoc) { d.email.Some? && d.email.value != "" && EmailPattern(d.email.value) }
  /** `required`, `minlength: 8` and `match` on a plain password; a stored
      bcrypt digest is taken to pass them. */
  predicate PasswordOk(d: UserDoc)
  {
    && d.password.Some?
    && match d.password.value
       case Plain(p) => p != "" && |p| >= 8 && PasswordPattern(p)
       case Hashed(_) => true
  }

  predicate DocValid(d: UserDoc)
  {
    NameOk(d) && LastNameOk(d) && AgeOk(d) && EmailOk(d) && PasswordOk(d)
  }

  /** The paths whose validators fail; `save()` rejects the document with a
      `ValidationError` exactly when there is one. */
  function Failures(d: UserDoc): (f: set<UserField>)
    ensures f == {} <==> DocValid(d)
    ensures Password in f <==> !PasswordOk(d)
    ensures Email in f <==> !EmailOk(d)
  {
    (if NameOk(d) then {} else {Name})
    + (if LastNameOk(d) then {} else {LastName})
    + (if AgeOk(d) then {} else {Age})
    + (if EmailOk(d) then {} else {Email})
    + (if PasswordOk(d) then {} else {Password})
  }

  // ------------------------------------------------------------ pre-save hook

  /** The pre-save hook: a modified plain password is replaced by its bcrypt
      digest made with `salt`; a document whose password was not modified is
      left exactly as it is. */
  function PreSave(d: UserDoc, salt: nat): (r: UserDoc)
    ensures !d.passwordModified ==> r == d
    ensures d.passwordModified && d.password.Some? && d.password.value.Plain? ==>
              r.password == Some(Hashed(Bcrypt.Hash(d.password.value.text, salt)))
              && Bcrypt.Compare(d.password.value.text, r.password.value.digest)
    ensures r.resetPasswordJti == d.resetPasswordJti && r.email == d.email
  {
    if d.passwordModified && d.password.Some? && d.password.value.Plain? then
      d.(password := Some(Hashed(Bcrypt.Hash(d.password.value.text, salt))))
    else d
  }

  // ------------------------------------------------------------ documents and records

  /** What `findOne` / `findById` hand back for a stored record. */
  function LoadDoc(r: UserRecord): UserDoc
  {
    UserDoc(Some(r.name), Some(r.lastName), Some(r.age), Some(r.email),
            Some(Hashed(r.passwordHash)), false, r.resetPasswordJti)
  }

  predicate Storable(d: UserDoc)
  {
    d.name.Some? && d.lastName.Some? && d.age.Some? && d.email.Some?
    && d.password.Some? && d.password.value.Hashed?
  }

  /** The record `save()` writes for a document once its password is hashed. */
  function ToRecord(d: UserDoc): UserRecord
    requires Storable(d)
  {
    UserRecord(d.name.value, d.lastName.value, d.age.value, d.email.value,
               d.password.value.digest, d.resetPasswordJti)
  }

  /** What every stored record satisfies: the schema's validators held when it
      was saved, and its name is trimmed and its e-mail lower-cased. */
  predicate RecordValid(r: UserRecord)
  {
    && r.name != "" && IsTrimmed(r.name)
    && r.lastName != ""
    && r.age >= MinAge
    && r.email != "" && EmailPattern(r.email) && !HasUpper(r.email)
  }

  /** A new document that passes validation is stored, after the hook, as a
      valid record holding the trimmed name, the last name and age as given,
      the lower-cased e-mail, a digest that matches the password it was given,
      and a `null` reset marker. */
  lemma {:induction false} NewDocStored(name: Option<string>, lastName: Option<string>, age: Option<int>,
                     email: Option<string>, password: Option<string>, salt: nat)
    requires DocValid(NewUserDoc(name, lastName, age, email, password))
    ensures Storable(PreSave(NewUserDoc(name, lastName, age, email, password), salt))
    ensures var r := ToRecord(PreSave(NewUserDoc(name, lastName, age, email, password), salt));
            && RecordValid(r)
            && r.name == Trim(name.value) && r.lastName == lastName.value && r.age == age.value
            && r.email == ToLower(email.value)
            && Bcrypt.Compare(password.value, r.passwordHash)
            && r.resetPasswordJti == None
  {
  }

  /** Re-saving a loaded record after changing only its reset marker passes
      validation, does not re-hash the password, and stores the record with
      the new marker and nothing else changed. */
  lemma {:induction false} MarkerSave(r: UserRecord, marker: Option<string>, salt: nat)
    requires RecordValid(r)
    ensures var d := LoadDoc(r).(resetPasswordJti := marker);
            && DocValid(d)
            && PreSave(d, salt) == d
            && ToRecord(d) == r.(resetPasswordJti := marker)
  {
  }

  /** Re-saving a loaded record after assigning a new password validates that
      password against the schema pattern, and stores its digest made with
      `salt`, keeping every other field, the reset marker included. */
  lemma {:induction false} PasswordSave(r: UserRecord, p: string, salt: nat)
    requires RecordValid(r)
    ensures var d := LoadDoc(r).(password := Some(Plain(p)), passwordModified := true);
            && (DocValid(d) <==> PasswordPattern(p))
            && Storable(PreSave(d, salt))
            && ToRecord(PreSave(d, salt)) == r.(passwordHash := Bcrypt.Hash(p, salt))
  {
  }

  /** A document object, updated in place by the controller and by the hook. */
  class UserDocument {
    var name: Option<string>
    var lastName: Option<string>
    var age: Option<int>
    var email: Option<string>
    var password: Option<PasswordValue>
    var passwordModified: bool
    var resetPasswordJti: Option<string>

    function Value(): UserDoc
      reads this
    {
      UserDoc(name, lastName, age, email, password, passwordModified, resetPasswordJti)
    }

    /** `new User({ name, lastName, age, email, password })` */
    constructor New(name: Option<string>, lastName: Option<string>, age: Option<int>,
                    email: Option<string>, password: Option<string>)
      ensures Value() == NewUserDoc(name, lastName, age, email, password)
    {
      var d := NewUserDoc(name, lastName, age, email, password);
      this.name := d.name;
      this.lastName := d.lastName;
      this.age := d.age;
      this.email := d.email;
      this.password := d.password;
      this.passwordModified := true;
      this.resetPasswordJti := None;
    }

    /** The document `findOne` / `findById` returns for a stored record. */
    constructor Load(r: UserRecord)
      ensures Value() == LoadDoc(r)
    {
      name := Some(r.name);
      lastName := Some(r.lastName);
      age := Some(r.age);
      email := Some(r.email);
      password := Some(Hashed(r.passwordHash));
      passwordModified := false;
      resetPasswordJti := r.resetPasswordJti;
    }

    /** `user.password = newPassword`: the path now holds plain text and is
        marked modified. */
    method AssignPassword(p: string)
      modifies this
      ensures Value() == old(Value()).(password := Some(Plain(p)), passwordModified := true)
    {
      password := Some(Plain(p));
      passwordModified := true;
    }

    /** `user.resetPasswordJti = jwtid` */
    method AssignResetPasswordJti(jti: string)
      modifies this
      ensures Value() == old(Value()).(resetPasswordJti := Some(jti))
    {
      resetPasswordJti := Some(jti);
    }

    /** `userSchema.pre("save", ...)`: when `password` was modified, replace it
        by its digest. */
    method PreSaveHook(salt: nat)
      modifies this
      ensures Value() == PreSave(old(Value()), salt)
    {
      if !passwordModified {
        return;
      }
      match password {
        case Some(Plain(p)) =>
          password := Some(Hashed(Bcrypt.Hash(p, salt)));
        case _ =>
      }
    }
  }
}
