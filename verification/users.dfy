/** The account controller: registration, activation, profile update and
    account deletion, reduced to their effect on the store. Password hashing
    and the schema's email pattern are parameters; the emails the handlers
    send are outside the model. */
module UsersController {
  import opened Common
  import opened Models

  datatype Msg =
    | ValidationFailed | UsernameExists | EmailExists | SaveRejected
    | RegisteredWithEmail | RegisteredWithUsername
    | ActivationTokenRequired | UserNotFound | AccountAlreadyActive | AccountActivated
    | TokenExpired | TokenInvalid
    | UserUpdated | AccountDeleted

  /** Request body of registerUser. */
  datatype RegisterInput = RegisterInput(
    name: Option<string>,
    username: Option<string>,
    email: Option<string>,
    password: Option<string>)

  /** Request body of updateUser. */
  datatype UpdateInput = UpdateInput(name: Option<string>, username: Option<string>, email: Option<string>)

  /** The handler's own email normalisation: a truthy address is trimmed
      and lower-cased, anything else becomes `undefined`. */
  function NormalizeEmail(e: Option<string>): (r: Option<string>)
    ensures r.Some? <==> Truthy(e)
    ensures Truthy(r) <==> Truthy(e) && |Trim(e.value)| > 0
    ensures r.Some? ==> StoredEmail(r) == r
  {
    if Truthy(e) then
      NormalizedEmailIsStored(e.value);
      Some(ToLower(Trim(e.value)))
    else None
  }

  /** The schema's email validator: an empty value passes, anything else
      must match the address pattern, which is a parameter here. */
  predicate EmailAccepted(emailOk: string -> bool, e: Option<string>) {
    !Truthy(e) || emailOk(e.value)
  }

  /** Does `save` accept `u` under `id`: the schema validators, the email
      pattern and the unique indexes. */
  predicate Savable(s: Store, id: UserId, u: User, emailOk: string -> bool) {
    ValidUser(u) && EmailAccepted(emailOk, u.email) && !IndexConflict(s, id, u)
  }

  /** Does some account hold this (stored) email? */
  predicate EmailTaken(s: Store, e: Option<string>) {
    exists v :: v in s.users && s.users[v].email == StoredEmail(e)
  }

  /** The username lookup as the handler issues it: `findOne({ username })`
      also runs when no username was sent, and then it matches the
      accounts that have no username. */
  predicate UsernameTakenAsWritten(s: Store, username: Option<string>) {
    exists v :: v in s.users && s.users[v].username == StoredUsername(username)
  }

  /** The username lookup restricted to requests that carry a username. */
  predicate UsernameTaken(s: Store, username: Option<string>) {
    username.Some? && UsernameTakenAsWritten(s, username)
  }

  /** registerUser after its username lookup has been decided. A missing
      password makes the hash call throw; a missing name fails the required
      check on save. */
  function Register(s: Store, input: RegisterInput, usernameTaken: bool, hash: string -> string, emailOk: string -> bool, id: UserId): (r: Step<Msg, UserId>)
    requires id !in s.users
    ensures r.reply.status in {201, 409, 500}
    ensures r.reply.status != 201 ==> r.store == s
    ensures r.reply.status == 409 && r.reply.message == UsernameExists <==> usernameTaken
    ensures r.reply.status == 409 && r.reply.message == EmailExists <==>
              !usernameTaken && Truthy(NormalizeEmail(input.email)) && EmailTaken(s, NormalizeEmail(input.email))
    ensures r.reply.status == 201 <==>
              && !usernameTaken && !(Truthy(NormalizeEmail(input.email)) && EmailTaken(s, NormalizeEmail(input.email)))
              && input.password.Some?
              && Savable(s, id, NewUser(input.name.GetOr(""), input.username, NormalizeEmail(input.email), hash(input.password.value)), emailOk)
    ensures r.reply.status == 201 ==>
              && r.reply.data == Some(id)
              && input.password.Some?
              && var u := NewUser(input.name.GetOr(""), input.username, NormalizeEmail(input.email), hash(input.password.value));
              && r.store == s.(users := s.users[id := u])
              && Savable(s, id, u, emailOk)
              && (r.reply.message == RegisteredWithEmail <==> Truthy(u.email))
  {
    var email := NormalizeEmail(input.email);
    if usernameTaken then Step(Reply(409, UsernameExists, None), s)
    else if Truthy(email) && EmailTaken(s, email) then Step(Reply(409, EmailExists, None), s)
    else if input.password.None? then Step(Reply(500, SaveRejected, None), s)
    else
      var u := NewUser(input.name.GetOr(""), input.username, email, hash(input.password.value));
      if !Savable(s, id, u, emailOk) then Step(Reply(500, SaveRejected, None), s)
      else
        var message := if Truthy(email) then RegisteredWithEmail else RegisteredWithUsername;
        Step(Reply(201, message, Some(id)), s.(users := s.users[id := u]))
  }

  /** registerUser as written: the username lookup runs even when the
      request has no username. */
  function RegisterUserAsWritten(s: Store, input: RegisterInput, hash: string -> string, emailOk: string -> bool, id: UserId): (r: Step<Msg, UserId>)
    requires id !in s.users
    ensures r.reply.status == 409 && r.reply.message == UsernameExists <==>
              exists v :: v in s.users && s.users[v].username == StoredUsername(input.username)
  {
    Register(s, input, UsernameTakenAsWritten(s, input.username), hash, emailOk, id)
  }

  /** registerUser with the username lookup run only for a given username.
      The new account has role `User`, is inactive, has empty lists, and
      stores the normalised email; nothing else in the store changes. */
  function RegisterUser(s: Store, input: RegisterInput, hash: string -> string, emailOk: string -> bool, id: UserId): (r: Step<Msg, UserId>)
    requires id !in s.users
    ensures r.reply.status in {201, 409, 500}
    ensures r.reply.status != 201 ==> r.store == s
    ensures r.reply.status == 409 && r.reply.message == UsernameExists <==>
              input.username.Some? && exists v :: v in s.users && s.users[v].username == StoredUsername(input.username)
    ensures r.reply.status == 201 ==>
              && id in r.store.users && r.store.users[id].email == NormalizeEmail(input.email)
              && r.store.users[id].username == StoredUsername(input.username)
  {
    Register(s, input, UsernameTaken(s, input.username), hash, emailOk, id)
  }

  /** A registration is refused as a duplicate email exactly when the
      username check passed, the address is not blank, and some account
      holds the trimmed, lower-cased address. */
  lemma RegisterEmailConflict(s: Store, input: RegisterInput, hash: string -> string, emailOk: string -> bool, id: UserId)
    requires id !in s.users
    ensures var r := RegisterUser(s, input, hash, emailOk, id);
            r.reply.status == 409 && r.reply.message == EmailExists <==>
              && !UsernameTaken(s, input.username)
              && Truthy(input.email) && |Trim(input.email.value)| > 0
              && exists v :: v in s.users && s.users[v].email == Some(ToLower(Trim(input.email.value)))
  {
    var email := NormalizeEmail(input.email);
    if Truthy(input.email) {
      assert email == Some(ToLower(Trim(input.email.value)));
      assert StoredEmail(email) == email;
    }
  }

  /** The example address has no surrounding whitespace. */
  lemma ExampleAddressTrimmed()
    ensures Trim("bob@x.io") == "bob@x.io"
  {
    var e := "bob@x.io";
    assert e[0] == 'b' && e[|e| - 1] == 'o';
    TrimFixed(e);
  }

  /** The example address has no capitals. */
  lemma ExampleAddressLowered()
    ensures ToLower("bob@x.io") == "bob@x.io"
  {
    var e := "bob@x.io";
    assert forall i :: 0 <= i < |e| ==> e[i] in "bobx.io@";
    ToLowerFixed(e);
  }

  /** An account whose username is absent, and a registration without a
      username whose email is new: the handler as written answers 409
      "username exists", while the corrected lookup registers the user. */
  lemma UsernameLookupWithoutUsername()
    ensures var s := Store(map[UserId(0) := User("Ann", None, Some("ann@x.io"), "hashed-secret", Regular, true, [], [])], map[], map[], map[]);
            var input := RegisterInput(Some("Bob"), None, Some("bob@x.io"), Some("secret"));
            var hash := (p: string) => p + "-hashed";
            var emailOk := (e: string) => true;
            && RegisterUserAsWritten(s, input, hash, emailOk, UserId(1)).reply.status == 409
            && RegisterUser(s, input, hash, emailOk, UserId(1)).reply.status == 201
  {
    var ann := User("Ann", None, Some("ann@x.io"), "hashed-secret", Regular, true, [], []);
    var s := Store(map[UserId(0) := ann], map[], map[], map[]);
    var input := RegisterInput(Some("Bob"), None, Some("bob@x.io"), Some("secret"));
    var hash := (p: string) => p + "-hashed";
    var emailOk := (e: string) => true;
    assert UsernameTakenAsWritten(s, None) by {
      assert s.users[UserId(0)].username == StoredUsername(None);
    }
    ExampleAddressTrimmed();
    ExampleAddressLowered();
    var email := NormalizeEmail(input.email);
    assert email == Some("bob@x.io");
    assert !EmailTaken(s, email) by {
      assert StoredEmail(email) == email;
      assert s.users.Keys == {UserId(0)};
    }
    var bob := NewUser("Bob", None, email, hash("secret"));
    assert bob.email == Some("bob@x.io");
    assert ValidUser(bob);
    assert !IndexConflict(s, UserId(1), bob) by {
      assert s.users.Keys == {UserId(0)};
    }
  }

  /** activateAccount. The token's verdict is an input: a missing token is
      a 404, an expired or otherwise bad token a 401 with its own message. */
  function ActivateAccount(s: Store, token: Verified<UserId>): (r: Step<Msg, User>)
    ensures r.reply.status in {200, 201, 401, 404}
    ensures r.reply.status != 200 ==> r.store == s
    ensures r.reply.status == 404 <==> token.Missing? || (token.Valid? && token.payload !in s.users)
    ensures r.reply.status == 401 <==> token.Expired? || token.Malformed?
    ensures token.Expired? ==> r.reply.message == TokenExpired
    ensures token.Malformed? ==> r.reply.message == TokenInvalid
    ensures r.reply.status == 201 <==> token.Valid? && token.payload in s.users && s.users[token.payload].active
    ensures r.reply.status == 200 <==> token.Valid? && token.payload in s.users && !s.users[token.payload].active
    ensures r.reply.status == 200 ==>
              var u := token.payload;
              && u in r.store.users && r.store.users.Keys == s.users.Keys
              && r.store.users[u].active
              && r.store.users[u].(active := false) == s.users[u]
              && (forall v :: v in s.users && v != u ==> r.store.users[v] == s.users[v])
              && r.store.quizzes == s.quizzes && r.store.questions == s.questions && r.store.scores == s.scores
              && r.reply.data == Some(r.store.users[u])
  {
    match token
    case Missing => Step(Reply(404, ActivationTokenRequired, None), s)
    case Expired => Step(Reply(401, TokenExpired, None), s)
    case Malformed => Step(Reply(401, TokenInvalid, None), s)
    case Valid(u) =>
      if u !in s.users then Step(Reply(404, UserNotFound, None), s)
      else if s.users[u].active then Step(Reply(201, AccountAlreadyActive, None), s)
      else
        var active := s.users[u].(active := true);
        Step(Reply(200, AccountActivated, Some(active)), s.(users := s.users[u := active]))
  }

  /** Activating with the same token twice: the second call reports the
      account as already active and changes nothing. */
  lemma ActivateTwice(s: Store, u: UserId)
    requires ActivateAccount(s, Valid(u)).reply.status == 200
    ensures var once := ActivateAccount(s, Valid(u)).store;
            var twice := ActivateAccount(once, Valid(u));
            twice.reply.status == 201 && twice.store == once
  {
  }

  /** Does the update change the email: a truthy address that differs from
      the stored one, compared as sent (before the setters run). */
  predicate ChangesEmail(u: User, email: Option<string>) {
    Truthy(email) && email != u.email
  }

  /** The account after the update's assignments: name and username when
      truthy, email when it changes, which also deactivates the account. */
  function ApplyUserUpdate(u: User, input: UpdateInput): (u': User)
    ensures u'.name == if Truthy(input.name) then input.name.value else u.name
    ensures u'.username == if Truthy(input.username) then StoredUsername(input.username) else u.username
    ensures u'.email == if ChangesEmail(u, input.email) then StoredEmail(input.email) else u.email
    ensures u'.active == (u.active && !ChangesEmail(u, input.email))
    ensures u'.password == u.password && u'.role == u.role
    ensures u'.library == u.library && u'.quizzes == u.quizzes
  {
    var named := if Truthy(input.name) then u.(name := input.name.value) else u;
    var renamed := if Truthy(input.username) then named.(username := StoredUsername(input.username)) else named;
    if ChangesEmail(u, input.email) then renamed.(email := StoredEmail(input.email), active := false) else renamed
  }

  /** The username check of updateUser: `findOne({ username })` returns
      an account other than `caller`. */
  predicate UsernameHeldByOther(s: Store, caller: UserId, username: Option<string>) {
    var w := FindBy(s, (v: User) => v.username, StoredUsername(username));
    w.Some? && w.value != caller
  }

  /** The email check of updateUser: `findOne({ email })` returns an
      account other than `caller`. A blank address is sent as a filter on a
      missing email, which may return the caller itself. */
  predicate EmailHeldByOther(s: Store, caller: UserId, email: Option<string>) {
    var w := FindBy(s, (v: User) => v.email, StoredEmail(email));
    w.Some? && w.value != caller
  }

  /** With unique logins and a non-blank value, the checks above hold
      exactly when another account holds the value: the lookup's single
      result is then the only holder. */
  lemma HeldByOtherUnique(s: Store, caller: UserId, username: Option<string>, email: Option<string>)
    requires UniqueLogins(s)
    ensures username.Some? ==>
              (UsernameHeldByOther(s, caller, username) <==>
                 exists v :: v in s.users && v != caller && s.users[v].username == StoredUsername(username))
    ensures StoredEmail(email).Some? ==>
              (EmailHeldByOther(s, caller, email) <==>
                 exists v :: v in s.users && v != caller && s.users[v].email == StoredEmail(email))
  {
  }

  /** updateUser. A username or a changed email held by another account is
      a 409 (username first); the saved account must pass the schema. */
  function UpdateUser(s: Store, caller: UserId, input: UpdateInput, emailOk: string -> bool): (r: Step<Msg, User>)
    ensures r.reply.status in {200, 404, 409, 500}
    ensures r.reply.status != 200 ==> r.store == s
    ensures r.reply.status == 404 <==> caller !in s.users
    ensures r.reply.status == 409 && r.reply.message == UsernameExists <==>
              caller in s.users && Truthy(input.username) && UsernameHeldByOther(s, caller, input.username)
    ensures r.reply.status == 409 && r.reply.message == EmailExists <==>
              && caller in s.users && !(Truthy(input.username) && UsernameHeldByOther(s, caller, input.username))
              && ChangesEmail(s.users[caller], input.email) && EmailHeldByOther(s, caller, input.email)
    ensures r.reply.status == 200 ==>
              && caller in s.users
              && var u' := ApplyUserUpdate(s.users[caller], input);
              && r.store == s.(users := s.users[caller := u'])
              && Savable(s, caller, u', emailOk)
              && r.reply.data == Some(u')
  {
    if caller !in s.users then Step(Reply(404, UserNotFound, None), s)
    else
      var u := s.users[caller];
      if Truthy(input.username) && UsernameHeldByOther(s, caller, input.username) then
        Step(Reply(409, UsernameExists, None), s)
      else if ChangesEmail(u, input.email) && EmailHeldByOther(s, caller, input.email) then
        Step(Reply(409, EmailExists, None), s)
      else
        var u' := ApplyUserUpdate(u, input);
        if !Savable(s, caller, u', emailOk) then Step(Reply(500, SaveRejected, None), s)
        else Step(Reply(200, UserUpdated, Some(u')), s.(users := s.users[caller := u']))
  }

  /** An account with id 0 that holds the target is the one the lookup
      returns. */
  lemma LookupFindsIdZero(s: Store, field: User -> Option<string>, target: Option<string>)
    requires UserId(0) in s.users && field(s.users[UserId(0)]) == target
    ensures FindBy(s, field, target) == Some(UserId(0))
  {
  }

  /** A single space is a blank address, which the setters make absent. */
  lemma SpaceIsBlankEmail()
    ensures StoredEmail(Some(" ")) == None
  {
    assert Trim(" ") == "" by {
      assert IsSpace(" "[0]);
    }
  }

  /** Two accounts without an email: when the first sends a blank email,
      the lookup on a missing email returns the first account itself, so
      there is no 409; the update leaves the email unset and deactivates
      the account. */
  lemma BlankEmailUpdateFindsCaller(emailOk: string -> bool)
    ensures var ann := User("Ann", Some("ann"), None, "hashed-secret", Regular, true, [], []);
            var bob := User("Bob", Some("bob"), None, "hashed-secret", Regular, true, [], []);
            var s := Store(map[UserId(0) := ann, UserId(1) := bob], map[], map[], map[]);
            var r := UpdateUser(s, UserId(0), UpdateInput(None, None, Some(" ")), emailOk);
            && r.reply.status == 200
            && r.store.users[UserId(0)] == ann.(active := false)
  {
    var ann := User("Ann", Some("ann"), None, "hashed-secret", Regular, true, [], []);
    var bob := User("Bob", Some("bob"), None, "hashed-secret", Regular, true, [], []);
    var s := Store(map[UserId(0) := ann, UserId(1) := bob], map[], map[], map[]);
    var input := UpdateInput(None, None, Some(" "));
    SpaceIsBlankEmail();
    LookupFindsIdZero(s, (v: User) => v.email, None);
    assert !EmailHeldByOther(s, UserId(0), input.email);
    var u' := ApplyUserUpdate(ann, input);
    assert u' == ann.(active := false);
    assert !IndexConflict(s, UserId(0), u') by {
      assert s.users.Keys == {UserId(0), UserId(1)};
    }
    assert Savable(s, UserId(0), u', emailOk);
  }

  /** Changing to a new email deactivates the account; a request without a
      changed email leaves the active flag alone. */
  lemma UpdateEmailDeactivates(s: Store, caller: UserId, input: UpdateInput, emailOk: string -> bool)
    requires UpdateUser(s, caller, input, emailOk).reply.status == 200
    ensures var t := UpdateUser(s, caller, input, emailOk).store;
            && (ChangesEmail(s.users[caller], input.email) ==> !t.users[caller].active)
            && (!ChangesEmail(s.users[caller], input.email) ==> t.users[caller].active == s.users[caller].active)
            && (ChangesEmail(s.users[caller], input.email) ==> ActivateAccount(t, Valid(caller)).reply.status == 200)
  {
  }

  /** The quizzes a user owns. */
  function Owned(s: Store, u: UserId): (owned: set<QuizId>)
    ensures forall q :: q in owned <==> q in s.quizzes && s.quizzes[q].owner == u
  {
    set q | q in s.quizzes && s.quizzes[q].owner == u
  }

  /** deleteAccount. The cascade runs first and unconditionally: the
      questions and scores whose quiz the caller owns, the caller's quizzes,
      the caller's own scores; then the account itself, or 404 when there
      was none. Other users' libraries keep their references. */
  function DeleteAccount(s: Store, caller: UserId): (r: Step<Msg, ()>)
    ensures r.reply.status in {200, 404}
    ensures r.reply.status == 404 <==> caller !in s.users
    ensures r.store.users.Keys == s.users.Keys - {caller}
    ensures forall v :: v in r.store.users ==> r.store.users[v] == s.users[v]
    ensures forall q :: q in r.store.quizzes <==> q in s.quizzes && s.quizzes[q].owner != caller
    ensures forall q :: q in r.store.quizzes ==> r.store.quizzes[q] == s.quizzes[q]
    ensures forall k :: k in r.store.questions <==>
              k in s.questions && !(s.questions[k].quiz in s.quizzes && s.quizzes[s.questions[k].quiz].owner == caller)
    ensures forall k :: k in r.store.questions ==> r.store.questions[k] == s.questions[k]
    ensures forall k :: k in r.store.scores <==>
              && k in s.scores && s.scores[k].user != caller
              && !(s.scores[k].quiz in s.quizzes && s.quizzes[s.scores[k].quiz].owner == caller)
    ensures forall k :: k in r.store.scores ==> r.store.scores[k] == s.scores[k]
  {
    var owned := Owned(s, caller);
    var t := Store(
      s.users - {caller},
      map q | q in s.quizzes && q !in owned :: s.quizzes[q],
      map k | k in s.questions && s.questions[k].quiz !in owned :: s.questions[k],
      map k | k in s.scores && s.scores[k].quiz !in owned && s.scores[k].user != caller :: s.scores[k]);
    if caller !in s.users then Step(Reply(404, UserNotFound, None), t)
    else Step(Reply(200, AccountDeleted, None), t)
  }

  /** After deleting an account nothing refers to it any more: no quiz it
      owned, no question or score on such a quiz, no score of its own; and
      a second deletion is a 404 that changes nothing. */
  lemma DeleteAccountLeavesNoTrace(s: Store, caller: UserId)
    ensures var t := DeleteAccount(s, caller).store;
            && caller !in t.users
            && (forall q :: q in t.quizzes ==> t.quizzes[q].owner != caller)
            && (forall k :: k in t.scores ==> t.scores[k].user != caller)
            && (forall k :: k in t.questions && t.questions[k].quiz in s.quizzes ==> t.questions[k].quiz in t.quizzes)
            && (forall k :: k in t.scores && t.scores[k].quiz in s.quizzes ==> t.scores[k].quiz in t.quizzes)
            && DeleteAccount(t, caller).reply.status == 404
            && DeleteAccount(t, caller).store == t
  {
    var t := DeleteAccount(s, caller).store;
    var t2 := DeleteAccount(t, caller).store;
    assert t2.users == t.users;
    assert t2.quizzes == t.quizzes;
    assert t2.questions == t.questions;
    assert t2.scores == t.scores;
  }
}
