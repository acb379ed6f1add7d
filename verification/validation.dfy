/** The registration input rules that run before registerUser, and what
    they guarantee about the save that follows. The email format check is
    a parameter. */
module UsersValidation {
  import opened Common
  import opened Models
  import opened UsersController

  /** Letters, digits and the underscore. */
  predicate IsUsernameChar(c: char) {
    ('a' <= c <= 'z') || ('A' <= c <= 'Z') || ('0' <= c <= '9') || c == '_'
  }

  /** name: trimmed, non-empty, 2 to 50 characters. */
  predicate NameValid(name: Option<string>) {
    name.Some? && 2 <= |Trim(name.value)| <= 50
  }

  /** username: skipped when falsy; otherwise trimmed, 3 to 30 characters,
      all of them letters, digits or underscores. */
  predicate UsernameValid(username: Option<string>) {
    !Truthy(username)
    || (var u := Trim(username.value);
        3 <= |u| <= 30 && forall i :: 0 <= i < |u| ==> IsUsernameChar(u[i]))
  }

  /** email: skipped when falsy; otherwise it must look like an address. */
  predicate EmailValid(email: Option<string>, isEmail: string -> bool) {
    !Truthy(email) || isEmail(email.value)
  }

  /** password: trimmed, non-empty, 6 to 50 characters. */
  predicate PasswordValid(password: Option<string>) {
    password.Some? && 6 <= |Trim(password.value)| <= 50
  }

  /** The body-level rule: an email or a username must be sent. */
  predicate HasLogin(b: RegisterInput) {
    Truthy(b.email) || Truthy(b.username)
  }

  /** All of the registration rules. */
  predicate RegistrationValid(b: RegisterInput, isEmail: string -> bool) {
    && NameValid(b.name)
    && UsernameValid(b.username)
    && EmailValid(b.email, isEmail)
    && PasswordValid(b.password)
    && HasLogin(b)
  }

  /** The `trim` sanitiser on an optional field. */
  function TrimField(o: Option<string>): (r: Option<string>)
    ensures r.Some? <==> o.Some?
    ensures r.Some? ==> |r.value| <= |o.value| && Trim(r.value) == r.value
  {
    if o.Some? then TrimIdempotent(o.value); Some(Trim(o.value)) else None
  }

  /** The body as the sanitisers leave it: name, username and password
      trimmed in place. */
  function Sanitize(b: RegisterInput): (r: RegisterInput)
    ensures r.email == b.email
    ensures r.name == TrimField(b.name) && r.username == TrimField(b.username) && r.password == TrimField(b.password)
  {
    RegisterInput(TrimField(b.name), TrimField(b.username), b.email, TrimField(b.password))
  }

  /** The registration route: the rules, a 422 with the first failure,
      then the handler as the router mounts it (with its unconditional
      username lookup) on the sanitised body. */
  function RegisterRoute(s: Store, b: RegisterInput, isEmail: string -> bool, hash: string -> string, emailOk: string -> bool, id: UserId): (r: Step<Msg, UserId>)
    requires id !in s.users
    ensures r.reply.status == 422 <==> !RegistrationValid(b, isEmail)
    ensures r.reply.status == 422 ==> r.reply.message == ValidationFailed && r.store == s
    ensures r.reply.status != 422 ==> r == RegisterUserAsWritten(s, Sanitize(b), hash, emailOk, id)
  {
    if !RegistrationValid(b, isEmail) then Step(Reply(422, ValidationFailed, None), s)
    else RegisterUserAsWritten(s, Sanitize(b), hash, emailOk, id)
  }

  /** A valid username survives the sanitiser and the setter unchanged
      and passes the schema's length check. */
  lemma SanitizedUsernameOk(username: Option<string>)
    requires UsernameValid(username)
    ensures StoredUsername(TrimField(username)) == TrimField(username)
    ensures UsernameOk(TrimField(username))
    ensures Truthy(username) ==> Truthy(TrimField(username))
  {
    if username.Some? {
      var t := Trim(username.value);
      TrimIdempotent(username.value);
      assert TrimField(username) == Some(t);
      assert StoredUsername(Some(t)) == Some(t);
      if Truthy(username) {
        assert 3 <= |t| <= 30;
      } else {
        assert |t| == 0;
      }
    }
  }

  /** A non-blank address the schema pattern accepts is stored as the
      handler normalised it and passes the email validator. */
  lemma NormalizedEmailAccepted(email: Option<string>, emailOk: string -> bool)
    requires Truthy(email) ==> |Trim(email.value)| > 0 && emailOk(ToLower(Trim(email.value)))
    ensures StoredEmail(NormalizeEmail(email)) == NormalizeEmail(email)
    ensures EmailAccepted(emailOk, NormalizeEmail(email))
    ensures Truthy(email) ==> Truthy(NormalizeEmail(email))
  {
  }

  /** The account a sanitised valid body creates passes the schema's
      validators. */
  lemma SanitizedAccountValid(b: RegisterInput, isEmail: string -> bool, hash: string -> string, emailOk: string -> bool)
    requires RegistrationValid(b, isEmail)
    requires |hash(Trim(b.password.value))| >= 6
    requires Truthy(b.email) ==> |Trim(b.email.value)| > 0 && emailOk(ToLower(Trim(b.email.value)))
    ensures var c := Sanitize(b);
            var u := NewUser(c.name.GetOr(""), c.username, NormalizeEmail(c.email), hash(c.password.value));
            ValidUser(u) && EmailAccepted(emailOk, u.email)
  {
    var c := Sanitize(b);
    var u := NewUser(c.name.GetOr(""), c.username, NormalizeEmail(c.email), hash(c.password.value));
    SanitizedUsernameOk(b.username);
    NormalizedEmailAccepted(b.email, emailOk);
    assert u.username == c.username;
    assert u.email == NormalizeEmail(b.email);
    assert |u.name| > 0;
  }

  /** When the handler's two lookups find nothing, the new account does
      not collide with a unique index. */
  lemma LookupsCoverIndexes(s: Store, c: RegisterInput, password: string, id: UserId)
    requires c.username.Some? ==> Trim(c.username.value) == c.username.value
    requires !UsernameTaken(s, c.username)
    requires !(Truthy(NormalizeEmail(c.email)) && EmailTaken(s, NormalizeEmail(c.email)))
    requires NormalizeEmail(c.email).Some? ==> Truthy(NormalizeEmail(c.email))
    ensures !IndexConflict(s, id, NewUser(c.name.GetOr(""), c.username, NormalizeEmail(c.email), password))
  {
  }

  /** Input that passes the rules is never refused by the user schema: the
      only way the handler can then fail is a 409 for a taken username or
      email. This needs the stored hash to be long enough and the schema's
      address pattern to accept every non-blank address the validator
      accepts. */
  lemma ValidRegistrationIsSaved(s: Store, b: RegisterInput, isEmail: string -> bool, hash: string -> string, emailOk: string -> bool, id: UserId)
    requires id !in s.users
    requires RegistrationValid(b, isEmail)
    requires |hash(Trim(b.password.value))| >= 6
    requires Truthy(b.email) ==> |Trim(b.email.value)| > 0 && emailOk(ToLower(Trim(b.email.value)))
    ensures RegisterRoute(s, b, isEmail, hash, emailOk, id).reply.status in {201, 409}
  {
    var c := Sanitize(b);
    var email := NormalizeEmail(c.email);
    var usernameTaken := UsernameTakenAsWritten(s, c.username);
    if !usernameTaken && !(Truthy(email) && EmailTaken(s, email)) {
      SanitizedAccountValid(b, isEmail, hash, emailOk);
      LookupsCoverIndexes(s, c, hash(c.password.value), id);
      assert Register(s, c, usernameTaken, hash, emailOk, id).reply.status == 201;
    }
  }
}
