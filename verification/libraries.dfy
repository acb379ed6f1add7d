/** The library controller: a user's list of quizzes they may take, kept
    apart from the quizzes they own. Quizzes enter it from a share token or
    as public quizzes, with set semantics; admins may not add to it. */
module LibrariesController {
  import opened Common
  import opened Models

  datatype Msg =
    | UserIdRequired | UserNotFound | LibraryRetrieved
    | QuizNotFoundInLibrary | QuizRemoved
    | QuizIdRequired | QuizNotFoundOrUnauthorized | QuizLinkGenerated
    | TokenRequired | InvalidOrExpiredToken | AdminCannotAddQuiz | QuizAdded
    | QuizNotFoundOrNotPublic | PublicQuizAdded
    | QuizRetrieved

  /** The payload of a share token: the quiz and the user who shared it.
      Signing and expiry are outside the model. */
  datatype ShareToken = ShareToken(quizId: QuizId, sharedBy: UserId)

  /** The store with `u`'s library replaced. */
  function WithLibrary(s: Store, u: UserId, library: seq<QuizId>): (t: Store)
    requires u in s.users
    ensures t.users.Keys == s.users.Keys
    ensures t.users[u] == s.users[u].(library := library)
    ensures forall v :: v in s.users && v != u ==> t.users[v] == s.users[v]
    ensures t.quizzes == s.quizzes && t.questions == s.questions && t.scores == s.scores
  {
    s.(users := s.users[u := s.users[u].(library := library)])
  }

  /** getUserLibrary: the caller's library as populated, i.e. the listed
      quizzes that still exist, in list order. */
  function GetUserLibrary(s: Store, caller: Option<UserId>): (r: Reply<Msg, seq<QuizId>>)
    ensures r.status == 401 <==> caller.None?
    ensures r.status == 404 <==> caller.Some? && caller.value !in s.users
    ensures r.status == 200 ==>
              && caller.Some? && caller.value in s.users && r.data.Some?
              && (forall q :: q in r.data.value <==> q in s.users[caller.value].library && q in s.quizzes)
              && (forall q :: multiset(r.data.value)[q] ==
                               if q in s.quizzes then multiset(s.users[caller.value].library)[q] else 0)
              && IsSubsequence(r.data.value, s.users[caller.value].library)
              && |r.data.value| <= |s.users[caller.value].library|
  {
    if caller.None? then Reply(401, UserIdRequired, None)
    else if caller.value !in s.users then Reply(404, UserNotFound, None)
    else Reply(200, LibraryRetrieved, Some(KeepPresent(s.users[caller.value].library, s.quizzes)))
  }

  /** removeQuizFromLibrary: drops every occurrence of the quiz; 404 when
      there was none. */
  function RemoveQuizFromLibrary(s: Store, caller: UserId, quizId: QuizId): (r: Step<Msg, seq<QuizId>>)
    ensures r.reply.status in {200, 404}
    ensures r.reply.status != 200 ==> r.store == s
    ensures r.reply.status == 200 <==> caller in s.users && quizId in s.users[caller].library
    ensures r.reply.status == 200 ==>
              && caller in s.users && caller in r.store.users
              && r.store == WithLibrary(s, caller, r.store.users[caller].library)
              && quizId !in r.store.users[caller].library
              && multiset(r.store.users[caller].library) == multiset(s.users[caller].library)[quizId := 0]
              && r.reply.data == Some(r.store.users[caller].library)
  {
    if caller !in s.users then Step(Reply(404, UserNotFound, None), s)
    else
      var library := s.users[caller].library;
      var kept := RemoveAll(library, quizId);
      if |kept| == |library| then Step(Reply(404, QuizNotFoundInLibrary, None), s)
      else Step(Reply(200, QuizRemoved, Some(kept)), WithLibrary(s, caller, kept))
  }

  /** shareQuizWithUser: only the owner of an existing quiz gets a token,
      and the token names that quiz and the owner. */
  function ShareQuiz(s: Store, caller: UserId, quizId: Option<QuizId>): (r: Reply<Msg, ShareToken>)
    ensures r.status == 400 <==> quizId.None?
    ensures r.status == 200 <==>
              quizId.Some? && quizId.value in s.quizzes && s.quizzes[quizId.value].owner == caller
    ensures r.status == 200 ==> r.data == Some(ShareToken(quizId.value, caller))
    ensures r.status in {200, 400, 404}
  {
    if quizId.None? then Reply(400, QuizIdRequired, None)
    else if quizId.value !in s.quizzes || s.quizzes[quizId.value].owner != caller then
      Reply(404, QuizNotFoundOrUnauthorized, None)
    else Reply(200, QuizLinkGenerated, Some(ShareToken(quizId.value, caller)))
  }

  /** Admins are barred from adding quizzes to a library. */
  predicate MayAddToLibrary(s: Store, u: UserId)
    requires u in s.users
  {
    s.users[u].role != Admin
  }

  /** addQuizToLibraryUsingToken: a verified token's quiz is added to the
      caller's library with set semantics. The quiz itself is not looked up. */
  function RedeemToken(s: Store, caller: UserId, token: Verified<ShareToken>): (r: Step<Msg, ()>)
    ensures r.reply.status in {200, 400, 401, 403, 404}
    ensures r.reply.status != 200 ==> r.store == s
    ensures r.reply.status == 400 <==> token.Missing?
    ensures r.reply.status == 401 <==> token.Expired? || token.Malformed?
    ensures r.reply.status == 403 <==> token.Valid? && caller in s.users && s.users[caller].role == Admin
    ensures r.reply.status == 200 <==> token.Valid? && caller in s.users && s.users[caller].role != Admin
    ensures r.reply.status == 200 ==>
              && caller in s.users && caller in r.store.users
              && r.store == WithLibrary(s, caller, r.store.users[caller].library)
              && r.store.users[caller].library == AddToSet(s.users[caller].library, token.payload.quizId)
  {
    match token
    case Missing => Step(Reply(400, TokenRequired, None), s)
    case Expired => Step(Reply(401, InvalidOrExpiredToken, None), s)
    case Malformed => Step(Reply(401, InvalidOrExpiredToken, None), s)
    case Valid(t) =>
      if caller !in s.users then Step(Reply(404, UserNotFound, None), s)
      else if !MayAddToLibrary(s, caller) then Step(Reply(403, AdminCannotAddQuiz, None), s)
      else Step(Reply(200, QuizAdded, None),
                WithLibrary(s, caller, AddToSet(s.users[caller].library, t.quizId)))
  }

  /** addPublicQuizToLibrary: an existing public quiz is added to the
      caller's library with set semantics. */
  function AddPublicQuiz(s: Store, caller: UserId, quizId: Option<QuizId>): (r: Step<Msg, ()>)
    ensures r.reply.status in {200, 400, 403, 404}
    ensures r.reply.status != 200 ==> r.store == s
    ensures r.reply.status == 400 <==> quizId.None?
    ensures r.reply.status == 403 <==> quizId.Some? && caller in s.users && s.users[caller].role == Admin
    ensures r.reply.status == 200 <==>
              && quizId.Some? && caller in s.users && s.users[caller].role != Admin
              && quizId.value in s.quizzes && s.quizzes[quizId.value].visibility == Public
    ensures r.reply.status == 200 ==>
              && caller in s.users && caller in r.store.users
              && r.store == WithLibrary(s, caller, r.store.users[caller].library)
              && r.store.users[caller].library == AddToSet(s.users[caller].library, quizId.value)
  {
    if quizId.None? then Step(Reply(400, QuizIdRequired, None), s)
    else if caller !in s.users then Step(Reply(404, UserNotFound, None), s)
    else if !MayAddToLibrary(s, caller) then Step(Reply(403, AdminCannotAddQuiz, None), s)
    else if quizId.value !in s.quizzes || s.quizzes[quizId.value].visibility != Public then
      Step(Reply(404, QuizNotFoundOrNotPublic, None), s)
    else Step(Reply(200, PublicQuizAdded, None),
              WithLibrary(s, caller, AddToSet(s.users[caller].library, quizId.value)))
  }

  /** getQuizFromLibrary: the quiz is returned only when it is in the
      caller's library and still exists. */
  function GetQuizFromLibrary(s: Store, caller: Option<UserId>, quizId: QuizId): (r: Reply<Msg, Quiz>)
    ensures r.status in {200, 401, 404}
    ensures r.status == 401 <==> caller.None?
    ensures r.status == 200 <==>
              && caller.Some? && caller.value in s.users
              && quizId in s.users[caller.value].library && quizId in s.quizzes
    ensures r.status == 200 ==> r.data == Some(s.quizzes[quizId])
  {
    if caller.None? then Reply(401, UserIdRequired, None)
    else if caller.value !in s.users then Reply(404, UserNotFound, None)
    else if quizId !in KeepPresent(s.users[caller.value].library, s.quizzes) then
      Reply(404, QuizNotFoundInLibrary, None)
    else Reply(200, QuizRetrieved, Some(s.quizzes[quizId]))
  }

  /** A share token from the owner, redeemed by a non-admin user, puts the
      quiz in that user's library; redeeming it again changes nothing. */
  lemma ShareThenRedeem(s: Store, owner: UserId, taker: UserId, quizId: QuizId)
    requires quizId in s.quizzes && s.quizzes[quizId].owner == owner
    requires taker in s.users && s.users[taker].role != Admin
    ensures var share := ShareQuiz(s, owner, Some(quizId));
            share.status == 200 &&
            var once := RedeemToken(s, taker, Valid(share.data.value));
            && once.reply.status == 200
            && quizId in once.store.users[taker].library
            && multiset(once.store.users[taker].library)[quizId] >= 1
            && RedeemToken(once.store, taker, Valid(share.data.value)).store == once.store
  {
    var share := ShareQuiz(s, owner, Some(quizId));
    var once := RedeemToken(s, taker, Valid(share.data.value));
    var twice := RedeemToken(once.store, taker, Valid(share.data.value));
    assert twice.store.users[taker] == once.store.users[taker];
    assert twice.store.users == once.store.users;
  }

  /** Adding a public quiz and then removing it from the library leaves no
      occurrence of it, and the rest of the library as it was. */
  lemma AddThenRemove(s: Store, caller: UserId, quizId: QuizId)
    requires AddPublicQuiz(s, caller, Some(quizId)).reply.status == 200
    ensures var added := AddPublicQuiz(s, caller, Some(quizId)).store;
            var removed := RemoveQuizFromLibrary(added, caller, quizId);
            && removed.reply.status == 200
            && multiset(removed.store.users[caller].library)
               == multiset(s.users[caller].library)[quizId := 0]
  {
    var added := AddPublicQuiz(s, caller, Some(quizId)).store;
    var lib := s.users[caller].library;
    var lib' := AddToSet(lib, quizId);
    assert added.users[caller].library == lib';
    assert multiset(lib')[quizId := 0] == multiset(lib)[quizId := 0] by {
      if quizId !in lib {
        assert lib' == lib + [quizId];
        assert multiset(lib') == multiset(lib) + multiset{quizId};
      }
    }
  }

  /** A public quiz just added is in the library as read back, and can be
      opened from it. */
  lemma AddedQuizIsInLibrary(s: Store, caller: UserId, quizId: QuizId)
    requires AddPublicQuiz(s, caller, Some(quizId)).reply.status == 200
    ensures var t := AddPublicQuiz(s, caller, Some(quizId)).store;
            && GetUserLibrary(t, Some(caller)).status == 200
            && quizId in GetUserLibrary(t, Some(caller)).data.value
            && GetQuizFromLibrary(t, Some(caller), quizId) == Reply(200, QuizRetrieved, Some(s.quizzes[quizId]))
  {
  }
}
