/** Credential resolution for login: which account a request names, and
    whether its password matches. Password comparison against the stored
    hash is a parameter. */
module AuthService {
  import opened Common
  import opened Models

  datatype Msg = PasswordRequired | EmailOrUsernameRequired | InvalidEmail | InvalidUsername | InvalidPassword

  /** Request body of a login. */
  datatype Credentials = Credentials(email: Option<string>, username: Option<string>, password: Option<string>)

  /** The login lookup by email, through the email setters. An address
      that the setters turn into `undefined` is sent as a filter on a
      missing email, so it finds an account that has no email. */
  function ByEmail(s: Store, email: string): (r: Option<UserId>)
    requires UniqueLogins(s)
    ensures r.Some? <==> exists u :: u in s.users && s.users[u].email == StoredEmail(Some(email))
    ensures r.Some? ==> r.value in s.users && s.users[r.value].email == StoredEmail(Some(email))
    ensures r.Some? && StoredEmail(Some(email)).Some? ==>
              forall v :: v in s.users && s.users[v].email == StoredEmail(Some(email)) ==> v == r.value
  {
    FindBy(s, (u: User) => u.email, StoredEmail(Some(email)))
  }

  /** The login lookup by username, through the trimming setter. */
  function ByUsername(s: Store, username: string): (r: Option<UserId>)
    requires UniqueLogins(s)
    ensures r.Some? <==> exists u :: u in s.users && s.users[u].username == StoredUsername(Some(username))
    ensures r.Some? ==> r.value in s.users && s.users[r.value].username == StoredUsername(Some(username))
    ensures r.Some? ==> forall v :: v in s.users && s.users[v].username == StoredUsername(Some(username)) ==> v == r.value
  {
    FindBy(s, (u: User) => u.username, StoredUsername(Some(username)))
  }

  /** The account a login names: by email when one is given, otherwise by
      username; a 404 when there is none. */
  function Resolve(s: Store, c: Credentials): (r: Result<UserId, (int, Msg)>)
    requires UniqueLogins(s) && (Truthy(c.email) || Truthy(c.username))
    ensures r.Failure? ==> r.error == (if Truthy(c.email) then (404, InvalidEmail) else (404, InvalidUsername))
    ensures r.Success? <==> if Truthy(c.email) then ByEmail(s, c.email.value).Some? else ByUsername(s, c.username.value).Some?
    ensures r.Success? ==> r.value in s.users
  {
    if Truthy(c.email) then
      match ByEmail(s, c.email.value)
      case None => Failure((404, InvalidEmail))
      case Some(u) => Success(u)
    else
      match ByUsername(s, c.username.value)
      case None => Failure((404, InvalidUsername))
      case Some(u) => Success(u)
  }

  /** verifyUserData. A missing password, or neither email nor username,
      is a 400; the email wins when both are given; an unknown login is a
      404 and a wrong password a 401. The active flag is not consulted. */
  function VerifyUserData(s: Store, c: Credentials, matches: (string, string) -> bool): (r: Result<UserId, (int, Msg)>)
    requires UniqueLogins(s)
    ensures r == Failure((400, PasswordRequired)) <==> !Truthy(c.password)
    ensures r == Failure((400, EmailOrUsernameRequired)) <==> Truthy(c.password) && !Truthy(c.email) && !Truthy(c.username)
    ensures r == Failure((404, InvalidEmail)) <==>
              Truthy(c.password) && Truthy(c.email) && ByEmail(s, c.email.value).None?
    ensures r == Failure((404, InvalidUsername)) <==>
              Truthy(c.password) && !Truthy(c.email) && Truthy(c.username) && ByUsername(s, c.username.value).None?
    ensures r.Failure? ==> r.error.0 in {400, 401, 404}
    ensures r.Success? ==>
              && Truthy(c.password) && r.value in s.users
              && matches(c.password.value, s.users[r.value].password)
              && (Truthy(c.email) ==> s.users[r.value].email == StoredEmail(c.email))
              && (!Truthy(c.email) ==> Truthy(c.username) && s.users[r.value].username == StoredUsername(c.username))
  {
    if !Truthy(c.password) then Failure((400, PasswordRequired))
    else if !Truthy(c.email) && !Truthy(c.username) then Failure((400, EmailOrUsernameRequired))
    else
      match Resolve(s, c)
      case Failure(e) => Failure(e)
      case Success(u) =>
        if !matches(c.password.value, s.users[u].password) then Failure((401, InvalidPassword))
        else Success(u)
  }

  /** Every account whose login values and password hash match the
      credentials is the one resolved: with unique logins the answer does
      not depend on anything else. A wrong password for an existing login
      is a 401. The email must be one the account actually holds: a blank
      one stands for "no email", which several accounts may share (see
      BlankEmailFindsAccountWithoutEmail). */
  lemma VerifyUserDataResolvesHolder(s: Store, c: Credentials, matches: (string, string) -> bool, u: UserId)
    requires UniqueLogins(s)
    requires Truthy(c.password) && u in s.users
    requires Truthy(c.email) ==> s.users[u].email.Some? && s.users[u].email == StoredEmail(c.email)
    requires !Truthy(c.email) ==> Truthy(c.username) && s.users[u].username == StoredUsername(c.username)
    ensures matches(c.password.value, s.users[u].password) ==> VerifyUserData(s, c, matches) == Success(u)
    ensures !matches(c.password.value, s.users[u].password) ==> VerifyUserData(s, c, matches) == Failure((401, InvalidPassword))
  {
    if Truthy(c.email) {
      var found := ByEmail(s, c.email.value);
      assert found.Some?;
      assert found.value == u;
    } else {
      var found := ByUsername(s, c.username.value);
      assert found.Some?;
      assert found.value == u;
    }
  }

  /** A truthy email of blanks is stored as `undefined`, so the login
      looks for an account without an email: it is a 404 exactly when every
      account has one, and otherwise the password is checked against an
      account that has none (the one with the least id). */
  lemma BlankEmailFindsAccountWithoutEmail(s: Store, c: Credentials, matches: (string, string) -> bool)
    requires UniqueLogins(s)
    requires Truthy(c.password) && Truthy(c.email) && |Trim(c.email.value)| == 0
    ensures VerifyUserData(s, c, matches) == Failure((404, InvalidEmail)) <==>
              forall u :: u in s.users ==> s.users[u].email.Some?
    ensures VerifyUserData(s, c, matches).Success? ==> s.users[VerifyUserData(s, c, matches).value].email.None?
    ensures (exists u :: u in s.users && s.users[u].email.None?) ==>
              var w := ByEmail(s, c.email.value).value;
              && s.users[w].email.None?
              && VerifyUserData(s, c, matches) ==
                   if matches(c.password.value, s.users[w].password) then Success(w) else Failure((401, InvalidPassword))
  {
    assert StoredEmail(c.email).None?;
  }

  /** Two stores whose accounts agree on everything a login reads: the
      same ids, usernames, emails and password hashes. */
  predicate SameLogins(s: Store, t: Store) {
    && s.users.Keys == t.users.Keys
    && forall v :: v in s.users ==>
         && t.users[v].username == s.users[v].username
         && t.users[v].email == s.users[v].email
         && t.users[v].password == s.users[v].password
  }

  /** Lookups agree on stores with the same login data. */
  lemma ResolveDependsOnLogins(s: Store, t: Store, c: Credentials)
    requires UniqueLogins(s) && UniqueLogins(t) && SameLogins(s, t)
    requires Truthy(c.email) || Truthy(c.username)
    ensures Resolve(s, c) == Resolve(t, c)
  {
    if Truthy(c.email) {
      var e := StoredEmail(Some(c.email.value));
      if ByEmail(s, c.email.value).Some? {
        var w := ByEmail(s, c.email.value).value;
        assert t.users[w].email == e;
        var w' := ByEmail(t, c.email.value).value;
        assert s.users[w'].email == e;
        assert w.raw == w'.raw;
      }
      if ByEmail(t, c.email.value).Some? {
        var w := ByEmail(t, c.email.value).value;
        assert s.users[w].email == e;
      }
    } else {
      var n := StoredUsername(Some(c.username.value));
      if ByUsername(s, c.username.value).Some? {
        var w := ByUsername(s, c.username.value).value;
        assert t.users[w].username == n;
      }
      if ByUsername(t, c.username.value).Some? {
        var w := ByUsername(t, c.username.value).value;
        assert s.users[w].username == n;
      }
    }
  }

  /** Credential verification reads nothing but the login data: in
      particular not the active flag, the role or the lists. */
  lemma VerifyUserDataDependsOnLogins(s: Store, t: Store, c: Credentials, matches: (string, string) -> bool)
    requires UniqueLogins(s) && UniqueLogins(t) && SameLogins(s, t)
    ensures VerifyUserData(s, c, matches) == VerifyUserData(t, c, matches)
  {
    if Truthy(c.password) && (Truthy(c.email) || Truthy(c.username)) {
      ResolveDependsOnLogins(s, t, c);
    }
  }

  /** The store with one account's active flag set to `b`. */
  function WithActive(s: Store, u: UserId, b: bool): (t: Store)
    requires u in s.users
    ensures t.users.Keys == s.users.Keys
    ensures t.users[u] == s.users[u].(active := b)
    ensures forall v :: v in s.users && v != u ==> t.users[v] == s.users[v]
  {
    s.(users := s.users[u := s.users[u].(active := b)])
  }

  /** Activating or deactivating an account does not change the outcome of
      credential verification: inactive accounts can log in. */
  lemma VerifyUserDataIgnoresActive(s: Store, c: Credentials, matches: (string, string) -> bool, u: UserId, b: bool)
    requires UniqueLogins(s) && u in s.users
    ensures UniqueLogins(WithActive(s, u, b))
    ensures VerifyUserData(WithActive(s, u, b), c, matches) == VerifyUserData(s, c, matches)
  {
    var t := WithActive(s, u, b);
    assert SameLogins(s, t);
    assert UniqueLogins(t);
    VerifyUserDataDependsOnLogins(s, t, c, matches);
  }
}
