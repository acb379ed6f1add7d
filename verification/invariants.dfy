/** Store-wide invariants the database is meant to keep, and which
    operations keep them: unique logins (the unique indexes), owners that
    exist for every quiz, and at most one score per quiz and taker. */
module Invariants {
  import opened Common
  import opened Models
  import QuizzesController
  import UsersController
  import ScoresController

  /** Every quiz's owner is an existing account. */
  predicate OwnersExist(s: Store) {
    forall q :: q in s.quizzes ==> s.quizzes[q].owner in s.users
  }

  /** No two scores are for the same quiz and the same taker. */
  predicate OneScorePerTaker(s: Store) {
    forall k, j :: k in s.scores && j in s.scores && k != j ==>
      s.scores[k].quiz != s.scores[j].quiz || s.scores[k].user != s.scores[j].user
  }

  /** Adding an account that conflicts with no unique index keeps the
      logins unique. */
  lemma SaveKeepsUniqueLogins(s: Store, id: UserId, u: User)
    requires UniqueLogins(s) && !IndexConflict(s, id, u)
    ensures UniqueLogins(s.(users := s.users[id := u]))
  {
    var t := s.(users := s.users[id := u]);
    forall a, b | a in t.users && b in t.users && a != b
      ensures t.users[a].username.Some? ==> t.users[a].username != t.users[b].username
      ensures t.users[a].email.Some? ==> t.users[a].email != t.users[b].email
    {
      if a == id {
        assert b in s.users;
      } else if b == id {
        assert a in s.users;
      }
    }
  }

  /** A successful registration keeps the logins unique; a failed one
      leaves the store as it was. */
  lemma RegisterKeepsUniqueLogins(s: Store, input: UsersController.RegisterInput, hash: string -> string, emailOk: string -> bool, id: UserId)
    requires UniqueLogins(s) && id !in s.users
    ensures UniqueLogins(UsersController.RegisterUser(s, input, hash, emailOk, id).store)
  {
    var r := UsersController.Register(s, input, UsersController.UsernameTaken(s, input.username), hash, emailOk, id);
    if r.reply.status == 201 {
      var u := NewUser(input.name.GetOr(""), input.username, UsersController.NormalizeEmail(input.email), hash(input.password.value));
      SaveKeepsUniqueLogins(s, id, u);
    }
  }

  /** A successful profile update keeps the logins unique. */
  lemma UpdateKeepsUniqueLogins(s: Store, caller: UserId, input: UsersController.UpdateInput, emailOk: string -> bool)
    requires UniqueLogins(s)
    ensures UniqueLogins(UsersController.UpdateUser(s, caller, input, emailOk).store)
  {
    var r := UsersController.UpdateUser(s, caller, input, emailOk);
    if r.reply.status == 200 {
      SaveKeepsUniqueLogins(s, caller, UsersController.ApplyUserUpdate(s.users[caller], input));
    }
  }

  /** Activation flips one account's active flag and keeps the logins
      unique. */
  lemma ActivateKeepsUniqueLogins(s: Store, token: Verified<UserId>)
    requires UniqueLogins(s)
    ensures UniqueLogins(UsersController.ActivateAccount(s, token).store)
  {
    var t := UsersController.ActivateAccount(s, token).store;
    forall a, b | a in t.users && b in t.users && a != b
      ensures t.users[a].username.Some? ==> t.users[a].username != t.users[b].username
      ensures t.users[a].email.Some? ==> t.users[a].email != t.users[b].email
    {
      assert t.users[a].username == s.users[a].username && t.users[a].email == s.users[a].email;
      assert t.users[b].username == s.users[b].username && t.users[b].email == s.users[b].email;
    }
  }

  /** Registration adds an account and touches no quiz, so quiz owners
      still exist. */
  lemma RegisterKeepsOwners(s: Store, input: UsersController.RegisterInput, hash: string -> string, emailOk: string -> bool, id: UserId)
    requires OwnersExist(s) && id !in s.users
    ensures OwnersExist(UsersController.RegisterUser(s, input, hash, emailOk, id).store)
  {
    var r := UsersController.Register(s, input, UsersController.UsernameTaken(s, input.username), hash, emailOk, id);
    if r.reply.status == 201 {
      assert r.store.users.Keys == s.users.Keys + {id};
    }
  }

  /** The corrected createQuiz keeps every quiz owned by an existing
      account, which the source's ordering does not (see
      QuizzesController.CreateQuizAsWrittenOrphan). */
  lemma CreateQuizKeepsOwners(s: Store, caller: UserId, input: QuizzesController.QuizInput, id: QuizId)
    requires OwnersExist(s) && id !in s.quizzes
    ensures OwnersExist(QuizzesController.CreateQuiz(s, caller, input, id).store)
  {
    var t := QuizzesController.CreateQuiz(s, caller, input, id).store;
    forall q | q in t.quizzes
      ensures t.quizzes[q].owner in t.users
    {
      if q != id {
        assert t.quizzes[q] == s.quizzes[q];
      }
    }
  }

  /** createQuiz as written breaks the invariant: from a consistent store,
      an unknown caller leaves a quiz without an owner. */
  lemma CreateQuizAsWrittenBreaksOwners(s: Store, caller: UserId, input: QuizzesController.QuizInput, id: QuizId)
    requires OwnersExist(s) && id !in s.quizzes && caller !in s.users
    requires QuizzesController.CheckCreate(input).Success?
    ensures !OwnersExist(QuizzesController.CreateQuizAsWritten(s, caller, input, id).store)
  {
    QuizzesController.CreateQuizAsWrittenOrphan(s, caller, input, id);
  }

  /** Deleting an account also deletes every quiz it owned, so the owners
      of the remaining quizzes still exist. */
  lemma DeleteAccountKeepsOwners(s: Store, caller: UserId)
    requires OwnersExist(s)
    ensures OwnersExist(UsersController.DeleteAccount(s, caller).store)
  {
    var t := UsersController.DeleteAccount(s, caller).store;
    forall q | q in t.quizzes
      ensures t.quizzes[q].owner in t.users
    {
      assert t.quizzes[q] == s.quizzes[q];
      assert s.quizzes[q].owner != caller;
    }
  }

  /** Deleting a quiz keeps the owners of the others. */
  lemma DeleteQuizKeepsOwners(s: Store, caller: UserId, id: QuizId)
    requires OwnersExist(s)
    ensures OwnersExist(QuizzesController.DeleteQuiz(s, caller, id).store)
  {
    var r := QuizzesController.DeleteQuiz(s, caller, id);
    if r.reply.status == 200 {
      forall q | q in r.store.quizzes
        ensures r.store.quizzes[q].owner in r.store.users
      {
        assert r.store.quizzes[q] == s.quizzes[q];
      }
    }
  }

  /** The duplicate check of submitQuiz keeps one score per quiz and
      taker. */
  lemma SubmitKeepsOneScorePerTaker(s: Store, caller: Option<UserId>, quizId: QuizId, answers: seq<Option<int>>, id: ScoreId)
    requires OneScorePerTaker(s) && id !in s.scores
    ensures OneScorePerTaker(ScoresController.SubmitQuiz(s, caller, quizId, answers, id).store)
  {
    var r := ScoresController.SubmitQuiz(s, caller, quizId, answers, id);
    if r.reply.status == 200 {
      var t := r.store;
      assert !ScoresController.HasScore(s, quizId, caller.value);
      forall k, j | k in t.scores && j in t.scores && k != j
        ensures t.scores[k].quiz != t.scores[j].quiz || t.scores[k].user != t.scores[j].user
      {
        if k == id {
          assert j in s.scores;
        } else if j == id {
          assert k in s.scores;
        }
      }
    }
  }
}
