/** The question controller. Every change is gated on owning the parent
    quiz; the quiz keeps the ordered list of its question references. */
module QuestionsController {
  import opened Common
  import opened Models

  datatype Msg =
    | QuizNotFound | NoQuestionsFound | QuestionsFound
    | RequiredFieldsMissing | NotAuthorizedToAdd | SaveRejected | QuestionAdded
    | NotAuthorizedToDelete | QuestionNotFoundInQuiz | QuestionDeleted
    | QuestionNotFound | NotAuthorizedToUpdate | QuestionUpdated | QuestionFound

  /** The `options` field of a request body: absent or falsy, some other
      truthy value, or an array. Saving a truthy non-array casts it to a
      one-element array, which the schema's length check refuses. */
  datatype OptionsSent = NoOptions | NotAList | List(items: seq<string>)

  /** The `correctOption` field of a request body: `undefined`, `null`
      (which passes the handlers' `=== undefined` tests but fails the
      schema's `required`), or a number. */
  datatype CorrectSent = Undefined | Null | Index(n: int)

  /** Request body of addQuestionToQuiz and updateQuestionInQuiz. */
  datatype QuestionInput = QuestionInput(
    quizId: Option<QuizId>,
    text: Option<string>,
    options: OptionsSent,
    correctOption: CorrectSent)

  /** The question a fully given body describes. */
  function Submitted(input: QuestionInput, quizId: QuizId): (q: Question)
    requires Truthy(input.text) && input.options.List? && input.correctOption.Index?
    ensures q.quiz == quizId && q.text == input.text.value
    ensures q.options == input.options.items && q.correctOption == input.correctOption.n
  {
    Question(input.text.value, input.options.items, input.correctOption.n, quizId)
  }

  /** getQuestionsByQuizId: the quiz's questions as populated (those that
      still exist, in list order); 201 with a message when there are none. */
  function GetQuestionsByQuizId(s: Store, quizId: QuizId): (r: Reply<Msg, seq<QuestionId>>)
    ensures r.status in {200, 201, 404}
    ensures r.status == 404 <==> quizId !in s.quizzes
    ensures r.status == 201 <==>
              quizId in s.quizzes && forall k :: k in s.quizzes[quizId].questions ==> k !in s.questions
    ensures r.status == 200 ==>
              && quizId in s.quizzes && r.data.Some? && |r.data.value| > 0
              && (forall k :: k in r.data.value <==> k in s.quizzes[quizId].questions && k in s.questions)
              && (forall k :: multiset(r.data.value)[k] ==
                               if k in s.questions then multiset(s.quizzes[quizId].questions)[k] else 0)
              && IsSubsequence(r.data.value, s.quizzes[quizId].questions)
  {
    if quizId !in s.quizzes then Reply(404, QuizNotFound, None)
    else
      var present := KeepPresent(s.quizzes[quizId].questions, s.questions);
      if |present| == 0 then Reply(201, NoQuestionsFound, None)
      else
        assert present[0] in present;
        Reply(200, QuestionsFound, Some(present))
  }

  /** addQuestionToQuiz: the new question is saved (if the schema accepts
      it) and its id appended to the end of the quiz's list. A correct
      option of 0 or `null` counts as given; only an absent one is refused
      with a 400. Truthy non-array options and a `null` correct option get
      past the 404 and 403 checks and fail on save. */
  function AddQuestion(s: Store, caller: UserId, input: QuestionInput, id: QuestionId): (r: Step<Msg, QuestionId>)
    requires id !in s.questions
    ensures r.reply.status in {200, 400, 403, 404, 500}
    ensures r.reply.status != 200 ==> r.store == s
    ensures r.reply.status == 400 <==>
              input.quizId.None? || !Truthy(input.text) || input.options.NoOptions? || input.correctOption.Undefined?
    ensures r.reply.status == 404 <==> r.reply.status != 400 && input.quizId.value !in s.quizzes
    ensures r.reply.status == 403 <==>
              && r.reply.status != 400 && input.quizId.value in s.quizzes
              && s.quizzes[input.quizId.value].owner != caller
    ensures r.reply.status == 500 <==>
              && r.reply.status !in {400, 403, 404}
              && !(input.options.List? && input.correctOption.Index? && ValidQuestion(Submitted(input, input.quizId.value)))
    ensures r.reply.status == 200 ==>
              var quizId := input.quizId.value;
              && quizId in s.quizzes && s.quizzes[quizId].owner == caller
              && r.reply.data == Some(id)
              && input.options.List? && input.correctOption.Index?
              && r.store.questions == s.questions[id := Submitted(input, quizId)]
              && ValidQuestion(r.store.questions[id])
              && r.store.quizzes == s.quizzes[quizId := s.quizzes[quizId].(questions := s.quizzes[quizId].questions + [id])]
              && r.store.users == s.users && r.store.scores == s.scores
  {
    if input.quizId.None? || !Truthy(input.text) || input.options.NoOptions? || input.correctOption.Undefined? then
      Step(Reply(400, RequiredFieldsMissing, None), s)
    else
      var quizId := input.quizId.value;
      if quizId !in s.quizzes then Step(Reply(404, QuizNotFound, None), s)
      else
        var quiz := s.quizzes[quizId];
        if quiz.owner != caller then Step(Reply(403, NotAuthorizedToAdd, None), s)
        else
          if !input.options.List? || !input.correctOption.Index? then Step(Reply(500, SaveRejected, None), s)
          else
            var q := Submitted(input, quizId);
            if !ValidQuestion(q) then Step(Reply(500, SaveRejected, None), s)
            else Step(Reply(200, QuestionAdded, Some(id)),
                      s.(questions := s.questions[id := q],
                         quizzes := s.quizzes[quizId := quiz.(questions := quiz.questions + [id])]))
  }

  /** deleteQuestionFromQuiz: owner only; 404 when the id is not in the
      quiz's list. Otherwise the question record goes and the first
      occurrence of the id is spliced out of the list. */
  function DeleteQuestion(s: Store, caller: UserId, quizId: QuizId, questionId: QuestionId): (r: Step<Msg, ()>)
    ensures r.reply.status in {200, 403, 404}
    ensures r.reply.status != 200 ==> r.store == s
    ensures r.reply.status == 403 <==> quizId in s.quizzes && s.quizzes[quizId].owner != caller
    ensures r.reply.status == 200 <==>
              quizId in s.quizzes && s.quizzes[quizId].owner == caller && questionId in s.quizzes[quizId].questions
    ensures r.reply.status == 200 ==>
              var list := s.quizzes[quizId].questions;
              && r.store.questions == s.questions - {questionId}
              && quizId in r.store.quizzes
              && r.store.quizzes == s.quizzes[quizId := s.quizzes[quizId].(questions := r.store.quizzes[quizId].questions)]
              && (exists i :: 0 <= i < |list| && list[i] == questionId && questionId !in list[..i]
                   && r.store.quizzes[quizId].questions == list[..i] + list[i + 1..])
              && r.store.users == s.users && r.store.scores == s.scores
  {
    if quizId !in s.quizzes then Step(Reply(404, QuizNotFound, None), s)
    else
      var quiz := s.quizzes[quizId];
      if quiz.owner != caller then Step(Reply(403, NotAuthorizedToDelete, None), s)
      else
        var i := IndexOf(quiz.questions, questionId);
        if i == -1 then Step(Reply(404, QuestionNotFoundInQuiz, None), s)
        else Step(Reply(200, QuestionDeleted, None),
                  s.(questions := s.questions - {questionId},
                     quizzes := s.quizzes[quizId := quiz.(questions := RemoveAt(quiz.questions, i))]))
  }

  /** Adding a question and then deleting it restores the quiz's list and
      the question collection. */
  lemma AddThenDeleteRestores(s: Store, caller: UserId, input: QuestionInput, id: QuestionId)
    requires id !in s.questions
    requires input.quizId.Some? && input.quizId.value in s.quizzes
    requires id !in s.quizzes[input.quizId.value].questions
    requires AddQuestion(s, caller, input, id).reply.status == 200
    ensures var added := AddQuestion(s, caller, input, id).store;
            var deleted := DeleteQuestion(added, caller, input.quizId.value, id);
            deleted.reply.status == 200 && deleted.store == s
  {
    var quizId := input.quizId.value;
    var added := AddQuestion(s, caller, input, id).store;
    var list := s.quizzes[quizId].questions;
    var list' := added.quizzes[quizId].questions;
    assert list' == list + [id];
    assert IndexOf(list', id) == |list|;
    assert RemoveAt(list', |list|) == list;
    var deleted := DeleteQuestion(added, caller, quizId, id);
    assert deleted.store.quizzes[quizId] == s.quizzes[quizId];
    assert deleted.store.quizzes == s.quizzes;
    assert deleted.store.questions == s.questions;
  }

  /** The question after an update: text if truthy, options if an array was
      sent, correct option if a number was sent. The parent quiz never
      changes. A `null` correct option is assigned too, but then the save
      fails, which UpdateQuestion handles. */
  function ApplyQuestionUpdate(q: Question, input: QuestionInput): (q': Question)
    ensures q'.quiz == q.quiz
    ensures q'.text == if Truthy(input.text) then input.text.value else q.text
    ensures q'.options == if input.options.List? then input.options.items else q.options
    ensures q'.correctOption == if input.correctOption.Index? then input.correctOption.n else q.correctOption
  {
    Question(
      if Truthy(input.text) then input.text.value else q.text,
      if input.options.List? then input.options.items else q.options,
      if input.correctOption.Index? then input.correctOption.n else q.correctOption,
      q.quiz)
  }

  /** updateQuestionInQuiz: only the owner of the parent quiz may update
      (a missing parent quiz also yields 403); the saved record must pass
      the question schema, which a `null` correct option never does. */
  function UpdateQuestion(s: Store, caller: UserId, questionId: QuestionId, input: QuestionInput): (r: Step<Msg, Question>)
    ensures r.reply.status in {200, 403, 404, 500}
    ensures r.reply.status != 200 ==> r.store == s
    ensures r.reply.status == 404 <==> questionId !in s.questions
    ensures r.reply.status == 403 <==>
              && questionId in s.questions
              && (s.questions[questionId].quiz !in s.quizzes
                  || s.quizzes[s.questions[questionId].quiz].owner != caller)
    ensures r.reply.status == 500 <==>
              && r.reply.status !in {403, 404}
              && (input.correctOption.Null? || !ValidQuestion(ApplyQuestionUpdate(s.questions[questionId], input)))
    ensures r.reply.status == 200 ==>
              && questionId in s.questions && !input.correctOption.Null?
              && r.store == s.(questions := s.questions[questionId := ApplyQuestionUpdate(s.questions[questionId], input)])
              && ValidQuestion(r.store.questions[questionId])
  {
    if questionId !in s.questions then Step(Reply(404, QuestionNotFound, None), s)
    else
      var q := s.questions[questionId];
      if q.quiz !in s.quizzes || s.quizzes[q.quiz].owner != caller then
        Step(Reply(403, NotAuthorizedToUpdate, None), s)
      else
        var q' := ApplyQuestionUpdate(q, input);
        if input.correctOption.Null? || !ValidQuestion(q') then Step(Reply(500, SaveRejected, None), s)
        else Step(Reply(200, QuestionUpdated, Some(q')), s.(questions := s.questions[questionId := q']))
  }

  /** Applying the same question update twice is the same as applying it
      once. */
  lemma ApplyQuestionUpdateIdempotent(q: Question, input: QuestionInput)
    ensures ApplyQuestionUpdate(ApplyQuestionUpdate(q, input), input) == ApplyQuestionUpdate(q, input)
  {
  }

  /** Sending the same question update twice leaves the store as one
      update does. */
  lemma UpdateQuestionIdempotent(s: Store, caller: UserId, questionId: QuestionId, input: QuestionInput)
    requires UpdateQuestion(s, caller, questionId, input).reply.status == 200
    ensures var s1 := UpdateQuestion(s, caller, questionId, input).store;
            UpdateQuestion(s1, caller, questionId, input).reply.status == 200
            && UpdateQuestion(s1, caller, questionId, input).store == s1
  {
    var s1 := UpdateQuestion(s, caller, questionId, input).store;
    ApplyQuestionUpdateIdempotent(s.questions[questionId], input);
    assert s1.questions[questionId := ApplyQuestionUpdate(s1.questions[questionId], input)] == s1.questions;
  }

  /** getQuestionById: the question record, or 404. */
  function GetQuestionById(s: Store, questionId: QuestionId): (r: Reply<Msg, Question>)
    ensures r.status in {200, 404}
    ensures r.status == 404 <==> questionId !in s.questions
    ensures r.status == 200 ==> r.data == Some(s.questions[questionId])
  {
    if questionId !in s.questions then Reply(404, QuestionNotFound, None)
    else Reply(200, QuestionFound, Some(s.questions[questionId]))
  }

  /** A question just added is found by id with the text, options and
      correct option that were sent, under the quiz it was added to. */
  lemma AddedQuestionIsFound(s: Store, caller: UserId, input: QuestionInput, id: QuestionId)
    requires id !in s.questions
    requires AddQuestion(s, caller, input, id).reply.status == 200
    ensures var r := GetQuestionById(AddQuestion(s, caller, input, id).store, id);
            && r.status == 200
            && r.data.value == Submitted(input, input.quizId.value)
  {
  }

  /** A question just added is listed last among the quiz's questions as
      read back. */
  lemma AddedQuestionIsListed(s: Store, caller: UserId, input: QuestionInput, id: QuestionId)
    requires id !in s.questions
    requires AddQuestion(s, caller, input, id).reply.status == 200
    ensures var t := AddQuestion(s, caller, input, id).store;
            var r := GetQuestionsByQuizId(t, input.quizId.value);
            && r.status == 200
            && id in r.data.value
            && t.quizzes[input.quizId.value].questions[|t.quizzes[input.quizId.value].questions| - 1] == id
  {
  }
}
