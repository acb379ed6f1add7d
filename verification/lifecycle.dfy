/** How the account operations meet credential verification: an account
    that registration saves can log in with the very values it registered
    with, and one that is deleted can no longer log in. */
module AccountLifecycle {
  import opened Common
  import opened Models
  import UsersController
  import AuthService
  import Invariants

  /** After a successful registration, logging in with the registration's
      own email, username and password resolves to the new account, as
      long as the password hashes to something it matches and a given
      email is not blank. Registering keeps the logins unique, which
      credential verification needs. */
  lemma RegisteredUserCanLogIn(s: Store, input: UsersController.RegisterInput, hash: string -> string,
                               emailOk: string -> bool, id: UserId, matches: (string, string) -> bool)
    requires UniqueLogins(s) && id !in s.users
    requires UsersController.RegisterUser(s, input, hash, emailOk, id).reply.status == 201
    requires Truthy(input.password) && matches(input.password.value, hash(input.password.value))
    requires Truthy(input.email) ==> |Trim(input.email.value)| > 0
    ensures var t := UsersController.RegisterUser(s, input, hash, emailOk, id).store;
            && UniqueLogins(t)
            && AuthService.VerifyUserData(t, AuthService.Credentials(input.email, input.username, input.password), matches) == Success(id)
  {
    var r := UsersController.Register(s, input, UsersController.UsernameTaken(s, input.username), hash, emailOk, id);
    var t := r.store;
    var email := UsersController.NormalizeEmail(input.email);
    var u := NewUser(input.name.GetOr(""), input.username, email, hash(input.password.value));
    assert t == s.(users := s.users[id := u]);
    assert t.users[id] == u;
    Invariants.RegisterKeepsUniqueLogins(s, input, hash, emailOk, id);
    var c := AuthService.Credentials(input.email, input.username, input.password);
    if Truthy(input.email) {
      TrimToLower(input.email.value);
      assert u.email == StoredEmail(c.email);
    } else {
      assert email.None?;
      assert Truthy(u.username);
    }
    AuthService.VerifyUserDataResolvesHolder(t, c, matches, id);
  }

  /** After an account is deleted, credentials that named it find nothing:
      the login is a 404, whatever the password. The email must be one the
      account held; a blank one names no account in particular and may
      still find another account without an email. */
  lemma DeletedAccountCannotLogIn(s: Store, caller: UserId, c: AuthService.Credentials, matches: (string, string) -> bool)
    requires UniqueLogins(s) && caller in s.users
    requires Truthy(c.password)
    requires Truthy(c.email) ==> s.users[caller].email.Some? && s.users[caller].email == StoredEmail(c.email)
    requires !Truthy(c.email) ==> Truthy(c.username) && s.users[caller].username == StoredUsername(c.username)
    ensures var t := UsersController.DeleteAccount(s, caller).store;
            && UniqueLogins(t)
            && AuthService.VerifyUserData(t, c, matches)
               == Failure((404, if Truthy(c.email) then AuthService.InvalidEmail else AuthService.InvalidUsername))
  {
    var t := UsersController.DeleteAccount(s, caller).store;
    forall a, b | a in t.users && b in t.users && a != b
      ensures t.users[a].username.Some? ==> t.users[a].username != t.users[b].username
      ensures t.users[a].email.Some? ==> t.users[a].email != t.users[b].email
    {
      assert t.users[a] == s.users[a] && t.users[b] == s.users[b];
    }
    if Truthy(c.email) {
      assert AuthService.ByEmail(t, c.email.value).None?;
    } else {
      assert AuthService.ByUsername(t, c.username.value).None?;
    }
  }
}
