/** The score controller: one submission per (quiz, user), graded on the
    spot; reading scores as the taker or as the quiz owner; deletion by the
    quiz owner only. */
module ScoresController {
  import opened Common
  import opened Models
  import opened Grading

  datatype Msg =
    | NotLoggedIn | UserNotFound | UserOnlySubmission | QuizNotInLibrary
    | AlreadySubmitted | QuizNotFound | SaveRejected | QuizSubmitted
    | ScoreNotFound | ScoreRetrieved | NoScoresFound | ScoresRetrieved
    | QuizMissing | OnlyQuizOwnerCanDelete | ScoreDeleted
    | NoOwnedQuizzesFound | NoScoresFoundForOwnedQuizzes

  /** Does a score already exist for this quiz and user? */
  predicate HasScore(s: Store, quizId: QuizId, u: UserId) {
    exists k :: k in s.scores && s.scores[k].quiz == quizId && s.scores[k].user == u
  }

  /** The library check of submitQuiz: the caller's library is read
      populated, so a listed quiz that no longer exists does not count. */
  predicate InLibrary(s: Store, u: UserId, quizId: QuizId)
    requires u in s.users
  {
    quizId in KeepPresent(s.users[u].library, s.quizzes)
  }

  /** The guards of submitQuiz, in source order. The library is read
      populated, so a quiz that passes the library check exists and the
      final 404 for a missing quiz is never reached. */
  function SubmitGuard(s: Store, caller: Option<UserId>, quizId: QuizId): (r: Option<(int, Msg)>)
    ensures r == Some((401, NotLoggedIn)) <==> caller.None?
    ensures r == Some((404, UserNotFound)) <==> caller.Some? && caller.value !in s.users
    ensures r == Some((403, UserOnlySubmission)) <==>
              caller.Some? && caller.value in s.users && s.users[caller.value].role != Regular
    ensures r == Some((403, QuizNotInLibrary)) <==>
              && caller.Some? && caller.value in s.users && s.users[caller.value].role == Regular
              && !(quizId in s.users[caller.value].library && quizId in s.quizzes)
    ensures r == Some((403, AlreadySubmitted)) <==>
              && caller.Some? && caller.value in s.users && s.users[caller.value].role == Regular
              && quizId in s.users[caller.value].library && quizId in s.quizzes
              && HasScore(s, quizId, caller.value)
    ensures r != Some((404, QuizNotFound))
    ensures r.Some? ==> r.value.0 in {401, 403, 404}
    ensures r.None? <==>
              && caller.Some? && caller.value in s.users
              && s.users[caller.value].role == Regular
              && quizId in s.users[caller.value].library && quizId in s.quizzes
              && !HasScore(s, quizId, caller.value)
  {
    if caller.None? then Some((401, NotLoggedIn))
    else if caller.value !in s.users then Some((404, UserNotFound))
    else if s.users[caller.value].role != Regular then Some((403, UserOnlySubmission))
    else if !InLibrary(s, caller.value, quizId) then Some((403, QuizNotInLibrary))
    else if HasScore(s, quizId, caller.value) then Some((403, AlreadySubmitted))
    else if quizId !in s.quizzes then Some((404, QuizNotFound))
    else None
  }

  /** Has every question an answer? */
  predicate AllAnswered(ids: seq<QuestionId>, answers: seq<Option<int>>) {
    forall i :: 0 <= i < |ids| ==> AnswerAt(answers, i).Some?
  }

  /** The stored answer list: the graded drafts with their selections filled in. */
  function SavedAnswers(ids: seq<QuestionId>, bank: map<QuestionId, Question>, answers: seq<Option<int>>): (a: seq<AnswerRecord>)
    requires AllPresent(ids, bank) && AllAnswered(ids, answers)
    ensures |a| == |ids|
    ensures forall i :: 0 <= i < |ids| ==>
              && a[i].question == ids[i]
              && Some(a[i].selectedOption) == AnswerAt(answers, i)
              && (a[i].isCorrect <==> AnswerAt(answers, i) == Some(bank[ids[i]].correctOption))
  {
    var drafts := Drafts(ids, bank, answers);
    seq(|drafts|, i requires 0 <= i < |drafts| =>
      AnswerRecord(drafts[i].question, drafts[i].selected.value, drafts[i].isCorrect))
  }

  /** The score document built from a graded submission, or `None` when
      the save is refused: with no questions the score is NaN, which the
      numeric field rejects, and a missing answer leaves the required
      selected option empty. */
  function Scored(quizId: QuizId, u: UserId, ids: seq<QuestionId>, bank: map<QuestionId, Question>, answers: seq<Option<int>>): (sc: Option<Score>)
    requires AllPresent(ids, bank)
    ensures sc.None? <==> |ids| == 0 || !AllAnswered(ids, answers)
    ensures sc.Some? ==>
              && sc.value.quiz == quizId && sc.value.user == u
              && sc.value.totalQuestions == |ids|
              && sc.value.correctAnswers == |CorrectPositions(ids, bank, answers, |ids|)|
              && sc.value.correctAnswers <= sc.value.totalQuestions
              && sc.value.value * (|ids| as real) == 100.0 * (sc.value.correctAnswers as real)
              && 0.0 <= sc.value.value <= 100.0
              && sc.value.answers == SavedAnswers(ids, bank, answers)
  {
    var correct := CountCorrect(ids, bank, answers, |ids|);
    CountCorrectIsCardinality(ids, bank, answers, |ids|);
    match Percentage(correct, |ids|)
    case None => None
    case Some(value) =>
      if !AllAnswered(ids, answers) then None
      else Some(Score(quizId, u, value, |ids|, correct, SavedAnswers(ids, bank, answers)))
  }

  /** submitQuiz. The quiz's questions are read populated (those that
      still exist, in list order) and graded; the score is stored under the
      fresh id when the schema accepts it. */
  function SubmitQuiz(s: Store, caller: Option<UserId>, quizId: QuizId, answers: seq<Option<int>>, id: ScoreId): (r: Step<Msg, Score>)
    requires id !in s.scores
    ensures r.reply.status in {200, 401, 403, 404, 500}
    ensures r.reply.status != 200 ==> r.store == s
    ensures r.reply.status == 401 <==> caller.None?
    ensures r.reply.status == 404 <==> caller.Some? && caller.value !in s.users
    ensures r.reply.status == 403 <==>
              && caller.Some? && caller.value in s.users
              && (|| s.users[caller.value].role != Regular
                  || quizId !in s.users[caller.value].library || quizId !in s.quizzes
                  || HasScore(s, quizId, caller.value))
    ensures r.reply.status == 500 <==>
              && SubmitGuard(s, caller, quizId).None?
              && Scored(quizId, caller.value, KeepPresent(s.quizzes[quizId].questions, s.questions), s.questions, answers).None?
    ensures r.reply.status == 200 ==>
              && SubmitGuard(s, caller, quizId).None?
              && r.reply.data == Scored(quizId, caller.value, KeepPresent(s.quizzes[quizId].questions, s.questions), s.questions, answers)
              && r.reply.data.Some?
              && r.store == s.(scores := s.scores[id := r.reply.data.value])
    ensures r.reply.message != QuizNotFound
  {
    match SubmitGuard(s, caller, quizId)
    case Some((code, m)) => Step(Reply(code, m, None), s)
    case None =>
      var ids := KeepPresent(s.quizzes[quizId].questions, s.questions);
      match Scored(quizId, caller.value, ids, s.questions, answers)
      case None => Step(Reply(500, SaveRejected, None), s)
      case Some(sc) => Step(Reply(200, QuizSubmitted, Some(sc)), s.(scores := s.scores[id := sc]))
  }

  /** Once a submission succeeds, any further submission by the same user
      for the same quiz is refused with 403. */
  lemma SecondSubmissionRejected(s: Store, caller: UserId, quizId: QuizId, answers: seq<Option<int>>, id: ScoreId,
                                 again: seq<Option<int>>, id2: ScoreId)
    requires id !in s.scores
    requires SubmitQuiz(s, Some(caller), quizId, answers, id).reply.status == 200
    requires id2 !in SubmitQuiz(s, Some(caller), quizId, answers, id).store.scores
    ensures var t := SubmitQuiz(s, Some(caller), quizId, answers, id).store;
            var r := SubmitQuiz(t, Some(caller), quizId, again, id2);
            r.reply.status == 403 && r.reply.message == AlreadySubmitted && r.store == t
  {
    var t := SubmitQuiz(s, Some(caller), quizId, answers, id).store;
    assert t.scores[id].quiz == quizId && t.scores[id].user == caller;
    assert HasScore(t, quizId, caller);
  }

  /** getSingleScore: a score is found only when it belongs to the caller. */
  function GetSingleScore(s: Store, caller: Option<UserId>, scoreId: ScoreId): (r: Reply<Msg, Score>)
    ensures r.status in {200, 401, 404}
    ensures r.status == 401 <==> caller.None?
    ensures r.status == 200 <==> caller.Some? && scoreId in s.scores && s.scores[scoreId].user == caller.value
    ensures r.status == 200 ==> r.data == Some(s.scores[scoreId])
  {
    if caller.None? then Reply(401, NotLoggedIn, None)
    else if scoreId !in s.scores || s.scores[scoreId].user != caller.value then Reply(404, ScoreNotFound, None)
    else Reply(200, ScoreRetrieved, Some(s.scores[scoreId]))
  }

  /** getAllScores: the caller's own scores; 404 when there are none. */
  function GetAllScores(s: Store, caller: Option<UserId>): (r: Reply<Msg, set<ScoreId>>)
    ensures r.status in {200, 401, 404}
    ensures r.status == 401 <==> caller.None?
    ensures r.status == 404 <==> caller.Some? && forall k :: k in s.scores ==> s.scores[k].user != caller.value
    ensures r.status == 200 ==>
              && r.data.Some? && r.data.value != {}
              && forall k :: k in r.data.value <==> k in s.scores && Some(s.scores[k].user) == caller
  {
    if caller.None? then Reply(401, NotLoggedIn, None)
    else
      var mine := set k | k in s.scores && s.scores[k].user == caller.value;
      assert forall k :: k in s.scores && s.scores[k].user == caller.value ==> k in mine;
      if mine == {} then Reply(404, NoScoresFound, None)
      else Reply(200, ScoresRetrieved, Some(mine))
  }

  /** deleteScore: only the owner of the score's quiz may delete it, and
      exactly that score goes. A score whose quiz is gone fails on the
      populated reference with a server error. */
  function DeleteScore(s: Store, caller: Option<UserId>, scoreId: ScoreId): (r: Step<Msg, ()>)
    ensures r.reply.status in {200, 401, 403, 404, 500}
    ensures r.reply.status != 200 ==> r.store == s
    ensures r.reply.status == 401 <==> caller.None?
    ensures r.reply.status == 404 <==> caller.Some? && scoreId !in s.scores
    ensures r.reply.status == 403 <==>
              && caller.Some? && scoreId in s.scores && s.scores[scoreId].quiz in s.quizzes
              && s.quizzes[s.scores[scoreId].quiz].owner != caller.value
    ensures r.reply.status == 200 <==>
              && caller.Some? && scoreId in s.scores && s.scores[scoreId].quiz in s.quizzes
              && s.quizzes[s.scores[scoreId].quiz].owner == caller.value
    ensures r.reply.status == 200 ==>
              && r.store.scores.Keys == s.scores.Keys - {scoreId}
              && (forall k :: k in r.store.scores ==> r.store.scores[k] == s.scores[k])
              && r.store.users == s.users && r.store.quizzes == s.quizzes && r.store.questions == s.questions
  {
    if caller.None? then Step(Reply(401, NotLoggedIn, None), s)
    else if scoreId !in s.scores then Step(Reply(404, ScoreNotFound, None), s)
    else
      var quizId := s.scores[scoreId].quiz;
      if quizId !in s.quizzes then Step(Reply(500, QuizMissing, None), s)
      else if s.quizzes[quizId].owner != caller.value then Step(Reply(403, OnlyQuizOwnerCanDelete, None), s)
      else Step(Reply(200, ScoreDeleted, None), s.(scores := s.scores - {scoreId}))
  }

  /** getQuizScores (the examiner view): every score on a quiz the caller
      owns; 404 when the caller owns no quiz or there is no such score. */
  function GetQuizScores(s: Store, caller: Option<UserId>): (r: Reply<Msg, set<ScoreId>>)
    ensures r.status in {200, 401, 404}
    ensures r.status == 401 <==> caller.None?
    ensures r.status == 404 && r.message == NoOwnedQuizzesFound <==>
              && caller.Some? && caller.value in s.users
              && forall q :: q in s.quizzes ==> s.quizzes[q].owner != caller.value
    ensures r.status == 200 <==>
              && caller.Some? && caller.value in s.users
              && exists k :: k in s.scores && s.scores[k].quiz in s.quizzes && s.quizzes[s.scores[k].quiz].owner == caller.value
    ensures r.status == 200 ==>
              && caller.Some? && caller.value in s.users && r.data.Some? && r.data.value != {}
              && forall k :: k in r.data.value <==>
                   k in s.scores && s.scores[k].quiz in s.quizzes && s.quizzes[s.scores[k].quiz].owner == caller.value
  {
    if caller.None? then Reply(401, NotLoggedIn, None)
    else if caller.value !in s.users then Reply(404, UserNotFound, None)
    else
      var owned := set q | q in s.quizzes && s.quizzes[q].owner == caller.value;
      assert forall q :: q in s.quizzes && s.quizzes[q].owner == caller.value ==> q in owned;
      if owned == {} then Reply(404, NoOwnedQuizzesFound, None)
      else
        var found := set k | k in s.scores && s.scores[k].quiz in owned;
        assert forall k :: k in s.scores && s.scores[k].quiz in owned ==> k in found;
        if found == {} then Reply(404, NoScoresFoundForOwnedQuizzes, None)
        else Reply(200, ScoresRetrieved, Some(found))
  }

  /** A successful submission can be read back by its taker, shows up in
      the taker's own score list and in the quiz owner's examiner view. */
  lemma SubmittedScoreIsListed(s: Store, caller: UserId, quizId: QuizId, answers: seq<Option<int>>, id: ScoreId)
    requires id !in s.scores
    requires SubmitQuiz(s, Some(caller), quizId, answers, id).reply.status == 200
    ensures var t := SubmitQuiz(s, Some(caller), quizId, answers, id).store;
            && GetSingleScore(t, Some(caller), id) == Reply(200, ScoreRetrieved, Some(t.scores[id]))
            && GetAllScores(t, Some(caller)).status == 200
            && id in GetAllScores(t, Some(caller)).data.value
            && var owner := s.quizzes[quizId].owner;
               (owner in t.users ==> GetQuizScores(t, Some(owner)).status == 200
                                     && id in GetQuizScores(t, Some(owner)).data.value)
  {
    var t := SubmitQuiz(s, Some(caller), quizId, answers, id).store;
    assert t.scores[id].user == caller && t.scores[id].quiz == quizId;
    var owner := s.quizzes[quizId].owner;
    assert quizId in t.quizzes && t.quizzes[quizId].owner == owner;
  }

  /** After the quiz owner deletes a score, nobody can read it any more. */
  lemma DeletedScoreIsGone(s: Store, owner: UserId, scoreId: ScoreId, reader: UserId)
    requires DeleteScore(s, Some(owner), scoreId).reply.status == 200
    ensures var t := DeleteScore(s, Some(owner), scoreId).store;
            && GetSingleScore(t, Some(reader), scoreId).status == 404
            && DeleteScore(t, Some(owner), scoreId).reply.status == 404
  {
  }
}
