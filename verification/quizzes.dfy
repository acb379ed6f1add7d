/** The quiz controller: creation, the paginated public listing, reading by
    id, update, the delete cascade and the visibility toggle. Every operation
    is gated on the quiz's owner. */
module QuizzesController {
  import opened Common
  import opened Models

  datatype Msg =
    | TitleRequired | DescriptionRequired | TimeRequired | InvalidVisibility
    | UserNotFound | QuizCreated
    | PublicQuizzesRetrieved | DatabaseRejected
    | LoginRequired | UserQuizzesRetrieved
    | QuizNotFound | NotAuthorizedToAccess | OwnerMissing | QuizRetrieved
    | NotAuthorizedToUpdate | SaveRejected | QuizUpdated
    | NotAuthorizedToDelete | QuizDeleted
    | NotAuthorizedToToggle | VisibilityToggled

  /** A JSON `time` field: absent, not a usable number (a string, NaN, ...),
      or a number. */
  datatype TimeField = Absent | NotANumber | Number(value: real)

  /** Request body of createQuiz and updateQuiz. `questions` is present only
      when the body carries an array. */
  datatype QuizInput = QuizInput(
    title: Option<string>,
    description: Option<string>,
    time: TimeField,
    visibility: Option<string>,
    questions: Option<seq<QuestionId>>)

  // ---------------------------------------------------------------------
  // createQuiz
  // ---------------------------------------------------------------------

  /** The 400 checks of createQuiz in source order; on success, the
      visibility to store ("private" when none was sent). */
  function CheckCreate(input: QuizInput): (r: Result<Visibility, Msg>)
    ensures !Truthy(input.title) ==> r == Failure(TitleRequired)
    ensures Truthy(input.title) && !Truthy(input.description) ==> r == Failure(DescriptionRequired)
    ensures (Truthy(input.title) && Truthy(input.description)
             && !(input.time.Number? && input.time.value > 0.0)) ==> r == Failure(TimeRequired)
    ensures r.Success? <==>
              && Truthy(input.title) && Truthy(input.description)
              && input.time.Number? && input.time.value > 0.0
              && (input.visibility.None? || input.visibility.value in {"public", "private"})
    ensures r.Success? ==>
              VisibilityName(r.value) == (if input.visibility.None? then "private" else input.visibility.value)
  {
    if !Truthy(input.title) then Failure(TitleRequired)
    else if !Truthy(input.description) then Failure(DescriptionRequired)
    else if !(input.time.Number? && input.time.value > 0.0) then Failure(TimeRequired)
    else if input.visibility.None? then Success(DefaultVisibility)
    else match ParseVisibility(input.visibility.value)
      case None => Failure(InvalidVisibility)
      case Some(v) => Success(v)
  }

  /** The quiz record createQuiz builds once the checks pass. */
  function NewQuiz(input: QuizInput, v: Visibility, caller: UserId): Quiz
    requires input.title.Some? && input.description.Some? && input.time.Number?
  {
    Quiz(input.title.value, input.description.value, input.time.value, [], caller, v)
  }

  /** createQuiz as the source orders it: the quiz is saved first and the
      owner looked up afterwards, so a 404 still leaves the quiz behind. */
  function CreateQuizAsWritten(s: Store, caller: UserId, input: QuizInput, id: QuizId): (r: Step<Msg, QuizId>)
    requires id !in s.quizzes
    ensures CheckCreate(input).Success? ==> id in r.store.quizzes
  {
    match CheckCreate(input)
    case Failure(m) => Step(Reply(400, m, None), s)
    case Success(v) =>
      var saved := s.(quizzes := s.quizzes[id := NewQuiz(input, v, caller)]);
      if caller !in saved.users then Step(Reply(404, UserNotFound, None), saved)
      else
        var u := saved.users[caller];
        Step(Reply(201, QuizCreated, Some(id)),
             saved.(users := saved.users[caller := u.(quizzes := u.quizzes + [id])]))
  }

  /** With an unknown caller, the source answers 404 yet keeps a quiz whose
      owner does not exist. */
  lemma CreateQuizAsWrittenOrphan(s: Store, caller: UserId, input: QuizInput, id: QuizId)
    requires id !in s.quizzes && caller !in s.users
    requires CheckCreate(input).Success?
    ensures CreateQuizAsWritten(s, caller, input, id).reply.status == 404
    ensures id in CreateQuizAsWritten(s, caller, input, id).store.quizzes
    ensures CreateQuizAsWritten(s, caller, input, id).store.quizzes[id].owner !in
              CreateQuizAsWritten(s, caller, input, id).store.users
  {
  }

  /** createQuiz with the owner looked up before anything is saved. */
  function CreateQuiz(s: Store, caller: UserId, input: QuizInput, id: QuizId): (r: Step<Msg, QuizId>)
    requires id !in s.quizzes
    ensures r.reply.status in {201, 400, 404}
    ensures r.reply.status != 201 ==> r.store == s
    ensures r.reply.status == 404 <==> CheckCreate(input).Success? && caller !in s.users
    ensures r.reply.status == 201 ==>
              && r.reply.data == Some(id)
              && id in r.store.quizzes
              && r.store.quizzes == s.quizzes[id := r.store.quizzes[id]]
              && r.store.quizzes[id].questions == []
              && r.store.quizzes[id].owner == caller
              && ValidQuiz(r.store.quizzes[id])
              && caller in s.users
              && r.store.users == s.users[caller := s.users[caller].(quizzes := s.users[caller].quizzes + [id])]
              && r.store.questions == s.questions && r.store.scores == s.scores
  {
    match CheckCreate(input)
    case Failure(m) => Step(Reply(400, m, None), s)
    case Success(v) =>
      if caller !in s.users then Step(Reply(404, UserNotFound, None), s)
      else
        var u := s.users[caller];
        Step(Reply(201, QuizCreated, Some(id)),
             s.(quizzes := s.quizzes[id := NewQuiz(input, v, caller)],
                users := s.users[caller := u.(quizzes := u.quizzes + [id])]))
  }

  // ---------------------------------------------------------------------
  // getQuizzes: public listing with pagination
  // ---------------------------------------------------------------------

  /** `parseInt(page) || 1`: a missing, unparsable or zero page means page 1. */
  function PageNumber(q: Option<int>): (p: int)
    ensures p != 0
    ensures q.Some? && q.value != 0 ==> p == q.value
  {
    if q.None? || q.value == 0 then 1 else q.value
  }

  /** `parseInt(limit) || 10`: a missing, unparsable or zero limit means 10. */
  function PageLimit(q: Option<int>): (l: int)
    ensures l != 0
    ensures q.Some? && q.value != 0 ==> l == q.value
  {
    if q.None? || q.value == 0 then 10 else q.value
  }

  /** `Math.ceil(a / b)` on integers. */
  function CeilDiv(a: int, b: int): (r: int)
    requires b != 0
    ensures b > 0 ==> (r - 1) * b < a <= r * b
    ensures b < 0 ==> r * b <= a < (r - 1) * b
  {
    if b > 0 then -((-a) / b) else -(a / (-b))
  }

  /** The listing's answer: one page of public quizzes and the totals. */
  datatype Page = Page(items: seq<QuizId>, totalQuizzes: nat, totalPages: int, currentPage: int)

  /** `publics` is the database's enumeration of the public quizzes: each
      public quiz exactly once, nothing else. */
  ghost predicate EnumeratesPublic(s: Store, publics: seq<QuizId>) {
    && (forall q :: q in publics <==> q in s.quizzes && s.quizzes[q].visibility == Public)
    && (forall i, j :: 0 <= i < j < |publics| ==> publics[i] != publics[j])
  }

  /** How many public quizzes a page skips: (page - 1) * limit. */
  function Skip(page: int, limit: int): int {
    (page - 1) * limit
  }

  /** How many quizzes a page holds at most: the database reads a negative
      limit as its absolute value. */
  function Span(limit: int): nat {
    if limit > 0 then limit else -limit
  }

  /** getQuizzes: skip (page-1)*limit public quizzes and return the next
      |limit|; the database refuses a negative skip. totalPages is
      ceil(total / limit). */
  function ListPublic(s: Store, publics: seq<QuizId>, pageQ: Option<int>, limitQ: Option<int>): (r: Reply<Msg, Page>)
    requires EnumeratesPublic(s, publics)
    ensures r.status in {200, 500}
    ensures r.status == 200 <==> Skip(PageNumber(pageQ), PageLimit(limitQ)) >= 0
    ensures r.status == 200 ==>
              var limit := PageLimit(limitQ);
              var skip := Skip(PageNumber(pageQ), limit);
              && r.data.Some?
              && r.data.value.currentPage == PageNumber(pageQ)
              && r.data.value.totalQuizzes == |publics|
              && |r.data.value.items| == (if skip >= |publics| then 0
                                          else if |publics| - skip < Span(limit) then |publics| - skip
                                          else Span(limit))
              && (forall j :: 0 <= j < |r.data.value.items| ==>
                    r.data.value.items[j] == publics[skip + j]
                    && r.data.value.items[j] in s.quizzes
                    && s.quizzes[r.data.value.items[j]].visibility == Public)
              && (limit > 0 && |publics| > 0 ==>
                    (r.data.value.totalPages - 1) * limit < |publics| <= r.data.value.totalPages * limit)
  {
    var page := PageNumber(pageQ);
    var limit := PageLimit(limitQ);
    var skip := Skip(page, limit);
    if skip < 0 then Reply(500, DatabaseRejected, None)
    else
      var from := if skip < |publics| then skip else |publics|;
      var to := if |publics| - from < Span(limit) then |publics| else from + Span(limit);
      Reply(200, PublicQuizzesRetrieved,
            Some(Page(publics[from..to], |publics|, CeilDiv(|publics|, limit), page)))
  }

  /** For a positive limit, the public quiz at position i is listed on page
      i / limit + 1, at position i % limit. */
  lemma ListPublicCovers(s: Store, publics: seq<QuizId>, limit: int, i: nat)
    requires EnumeratesPublic(s, publics)
    requires limit > 0 && i < |publics|
    ensures var r := ListPublic(s, publics, Some(i / limit + 1), Some(limit));
            r.status == 200 && r.data.value.items[i % limit] == publics[i]
  {
    var q, m := i / limit, i % limit;
    assert i == q * limit + m && 0 <= m < limit;
    assert Skip(q + 1, limit) == q * limit;
    var r := ListPublic(s, publics, Some(q + 1), Some(limit));
    assert r.status == 200;
    assert |r.data.value.items| > m;
  }

  // ---------------------------------------------------------------------
  // getUserQuizzes
  // ---------------------------------------------------------------------

  /** getUserQuizzes: the quizzes whose owner is the caller. */
  function UserQuizzes(s: Store, caller: Option<UserId>): (r: Reply<Msg, set<QuizId>>)
    ensures r.status == 401 <==> caller.None?
    ensures r.status == 200 ==>
              && r.data.Some?
              && forall q :: q in r.data.value <==> q in s.quizzes && Some(s.quizzes[q].owner) == caller
  {
    if caller.None? then Reply(401, LoginRequired, None)
    else Reply(200, UserQuizzesRetrieved,
               Some(set q | q in s.quizzes && s.quizzes[q].owner == caller.value))
  }

  // ---------------------------------------------------------------------
  // getQuizById
  // ---------------------------------------------------------------------

  /** The quiz as shown to a reader: the record, the count of its questions
      that still exist, and whether the owner-only visibility note is shown. */
  datatype QuizView = QuizView(quiz: Quiz, questionCount: nat, showsVisibility: bool)

  /** May `caller` read quiz `q`? The owner always; others only when public. */
  predicate MayRead(q: Quiz, caller: UserId) {
    q.owner == caller || q.visibility == Public
  }

  /** getQuizById. The owner is read through a populated reference, so a
      quiz whose owner record is gone fails with a server error. */
  function GetQuizById(s: Store, caller: UserId, id: QuizId): (r: Reply<Msg, QuizView>)
    ensures r.status == 404 <==> id !in s.quizzes
    ensures r.status == 403 <==>
              id in s.quizzes && s.quizzes[id].owner in s.users && !MayRead(s.quizzes[id], caller)
    ensures r.status == 200 <==>
              id in s.quizzes && s.quizzes[id].owner in s.users && MayRead(s.quizzes[id], caller)
    ensures r.status == 200 ==>
              && r.data.Some? && r.data.value.quiz == s.quizzes[id]
              && r.data.value.questionCount <= |s.quizzes[id].questions|
              && ((forall k :: k in s.quizzes[id].questions ==> k in s.questions) ==>
                    r.data.value.questionCount == |s.quizzes[id].questions|)
              && (r.data.value.showsVisibility <==> s.quizzes[id].owner == caller)
  {
    if id !in s.quizzes then Reply(404, QuizNotFound, None)
    else
      var q := s.quizzes[id];
      if q.owner !in s.users then Reply(500, OwnerMissing, None)
      else if q.owner != caller && q.visibility == Private then Reply(403, NotAuthorizedToAccess, None)
      else Reply(200, QuizRetrieved,
                 Some(QuizView(q, |KeepPresent(q.questions, s.questions)|, q.owner == caller)))
  }

  /** A quiz just created is listed among the owner's quizzes and readable
      by the owner with no questions; anyone else may read it exactly when
      it is public. */
  lemma CreatedQuizIsReadable(s: Store, caller: UserId, input: QuizInput, id: QuizId, other: UserId)
    requires id !in s.quizzes
    requires CreateQuiz(s, caller, input, id).reply.status == 201
    ensures var t := CreateQuiz(s, caller, input, id).store;
            && UserQuizzes(t, Some(caller)).status == 200
            && id in UserQuizzes(t, Some(caller)).data.value
            && GetQuizById(t, caller, id).status == 200
            && GetQuizById(t, caller, id).data.value.questionCount == 0
            && (other != caller ==>
                  (GetQuizById(t, other, id).status == 200 <==> t.quizzes[id].visibility == Public))
  {
    var t := CreateQuiz(s, caller, input, id).store;
    assert caller in t.users;
  }

  // ---------------------------------------------------------------------
  // updateQuiz
  // ---------------------------------------------------------------------

  /** The fields of `q` that an update body replaces: a truthy title or
      description, a non-zero number for time, a valid visibility name, and
      an array of question references. Anything else is ignored. */
  function ApplyUpdate(q: Quiz, input: QuizInput): (q': Quiz)
    ensures q'.owner == q.owner
    ensures q'.title == if Truthy(input.title) then input.title.value else q.title
    ensures q'.description == if Truthy(input.description) then input.description.value else q.description
    ensures q'.time == if input.time.Number? && input.time.value != 0.0 then input.time.value else q.time
    ensures q'.visibility == match input.visibility
                             case Some(v) => ParseVisibility(v).GetOr(q.visibility)
                             case None => q.visibility
    ensures q'.questions == if input.questions.Some? then input.questions.value else q.questions
  {
    var title := if Truthy(input.title) then input.title.value else q.title;
    var description := if Truthy(input.description) then input.description.value else q.description;
    var time := if input.time.Number? && input.time.value != 0.0 then input.time.value else q.time;
    var visibility := if input.visibility.Some? && ParseVisibility(input.visibility.value).Some?
                      then ParseVisibility(input.visibility.value).value else q.visibility;
    var questions := if input.questions.Some? then input.questions.value else q.questions;
    Quiz(title, description, time, questions, q.owner, visibility)
  }

  /** Applying the same update twice is the same as applying it once. */
  lemma ApplyUpdateIdempotent(q: Quiz, input: QuizInput)
    ensures ApplyUpdate(ApplyUpdate(q, input), input) == ApplyUpdate(q, input)
  {
  }

  /** updateQuiz: owner only; the record is replaced by its updated form. */
  function UpdateQuiz(s: Store, caller: UserId, id: QuizId, input: QuizInput): (r: Step<Msg, Quiz>)
    ensures r.reply.status == 404 <==> id !in s.quizzes
    ensures r.reply.status == 403 <==> id in s.quizzes && s.quizzes[id].owner != caller
    ensures r.reply.status != 200 ==> r.store == s
    ensures r.reply.status == 200 ==>
              && id in s.quizzes && s.quizzes[id].owner == caller
              && r.store == s.(quizzes := s.quizzes[id := ApplyUpdate(s.quizzes[id], input)])
              && r.store.quizzes[id].owner == s.quizzes[id].owner
    ensures id in s.quizzes && s.quizzes[id].owner == caller && ValidQuiz(s.quizzes[id]) ==>
              r.reply.status == 200
  {
    if id !in s.quizzes then Step(Reply(404, QuizNotFound, None), s)
    else
      var q := s.quizzes[id];
      if q.owner != caller then Step(Reply(403, NotAuthorizedToUpdate, None), s)
      else
        var q' := ApplyUpdate(q, input);
        if !ValidQuiz(q') then Step(Reply(500, SaveRejected, None), s)
        else Step(Reply(200, QuizUpdated, Some(q')), s.(quizzes := s.quizzes[id := q']))
  }

  /** Sending the same update twice leaves the store as one update does. */
  lemma UpdateQuizIdempotent(s: Store, caller: UserId, id: QuizId, input: QuizInput)
    requires UpdateQuiz(s, caller, id, input).reply.status == 200
    ensures var s1 := UpdateQuiz(s, caller, id, input).store;
            UpdateQuiz(s1, caller, id, input).store == s1
  {
    var s1 := UpdateQuiz(s, caller, id, input).store;
    ApplyUpdateIdempotent(s.quizzes[id], input);
    assert s1.quizzes[id := ApplyUpdate(s1.quizzes[id], input)] == s1.quizzes;
  }

  // ---------------------------------------------------------------------
  // deleteQuiz
  // ---------------------------------------------------------------------

  /** A user with every occurrence of `id` pulled from both lists. */
  function PullQuiz(u: User, id: QuizId): (u': User)
    ensures id !in u'.quizzes && id !in u'.library
    ensures u' == u.(quizzes := u'.quizzes, library := u'.library)
    ensures multiset(u'.quizzes) == multiset(u.quizzes)[id := 0]
    ensures multiset(u'.library) == multiset(u.library)[id := 0]
  {
    u.(quizzes := RemoveAll(u.quizzes, id), library := RemoveAll(u.library, id))
  }

  /** The store after the delete cascade of quiz `id`. */
  function DeleteCascade(s: Store, id: QuizId): (t: Store)
    requires id in s.quizzes
    ensures t.quizzes.Keys == s.quizzes.Keys - {id}
    ensures forall q :: q in t.quizzes ==> t.quizzes[q] == s.quizzes[q]
    ensures forall k :: k in t.questions <==> k in s.questions && k !in s.quizzes[id].questions
    ensures forall k :: k in t.questions ==> t.questions[k] == s.questions[k]
    ensures forall k :: k in t.scores <==> k in s.scores && s.scores[k].quiz != id
    ensures forall k :: k in t.scores ==> t.scores[k] == s.scores[k]
    ensures t.users.Keys == s.users.Keys
    ensures forall u :: u in t.users ==> t.users[u] == PullQuiz(s.users[u], id)
  {
    var doomed := set k | k in s.quizzes[id].questions;
    Store(
      map u | u in s.users :: PullQuiz(s.users[u], id),
      s.quizzes - {id},
      s.questions - doomed,
      map k | k in s.scores && s.scores[k].quiz != id :: s.scores[k])
  }

  /** deleteQuiz: owner only; cascades to the quiz's questions and scores
      and pulls the id from every user's lists. */
  function DeleteQuiz(s: Store, caller: UserId, id: QuizId): (r: Step<Msg, ()>)
    ensures r.reply.status in {200, 403, 404}
    ensures r.reply.status == 404 <==> id !in s.quizzes
    ensures r.reply.status == 403 <==> id in s.quizzes && s.quizzes[id].owner != caller
    ensures r.reply.status != 200 ==> r.store == s
    ensures r.reply.status == 200 ==> id in s.quizzes && r.store == DeleteCascade(s, id)
  {
    if id !in s.quizzes then Step(Reply(404, QuizNotFound, None), s)
    else if s.quizzes[id].owner != caller then Step(Reply(403, NotAuthorizedToDelete, None), s)
    else Step(Reply(200, QuizDeleted, None), DeleteCascade(s, id))
  }

  /** After a successful delete no reference to the quiz remains: no quiz
      record, no score on it, no listed question, and no user list entry. */
  lemma DeleteQuizLeavesNoReference(s: Store, caller: UserId, id: QuizId)
    requires DeleteQuiz(s, caller, id).reply.status == 200
    ensures var t := DeleteQuiz(s, caller, id).store;
            && id !in t.quizzes
            && (forall k :: k in t.scores ==> t.scores[k].quiz != id)
            && (forall k :: k in s.quizzes[id].questions ==> k !in t.questions)
            && (forall u :: u in t.users ==> id !in t.users[u].quizzes && id !in t.users[u].library)
  {
  }

  // ---------------------------------------------------------------------
  // toggleQuizVisibility (present in the source, not routed)
  // ---------------------------------------------------------------------

  function Flip(v: Visibility): (w: Visibility)
    ensures w != v
  {
    if v == Private then Public else Private
  }

  /** toggleQuizVisibility: owner only; swaps public and private. */
  function ToggleVisibility(s: Store, caller: UserId, id: QuizId): (r: Step<Msg, Visibility>)
    ensures r.reply.status == 404 <==> id !in s.quizzes
    ensures r.reply.status == 403 <==> id in s.quizzes && s.quizzes[id].owner != caller
    ensures r.reply.status != 200 ==> r.store == s
    ensures r.reply.status == 200 ==>
              && id in s.quizzes
              && r.store.quizzes.Keys == s.quizzes.Keys
              && r.store.quizzes[id] == s.quizzes[id].(visibility := r.store.quizzes[id].visibility)
              && r.store.quizzes[id].visibility != s.quizzes[id].visibility
              && r.reply.data == Some(r.store.quizzes[id].visibility)
              && r.store == s.(quizzes := r.store.quizzes)
              && (forall q :: q in s.quizzes && q != id ==> r.store.quizzes[q] == s.quizzes[q])
  {
    if id !in s.quizzes then Step(Reply(404, QuizNotFound, None), s)
    else
      var q := s.quizzes[id];
      if q.owner != caller then Step(Reply(403, NotAuthorizedToToggle, None), s)
      else
        var v := Flip(q.visibility);
        Step(Reply(200, VisibilityToggled, Some(v)), s.(quizzes := s.quizzes[id := q.(visibility := v)]))
  }

  /** Toggling twice restores the store. */
  lemma ToggleTwiceRestores(s: Store, caller: UserId, id: QuizId)
    requires ToggleVisibility(s, caller, id).reply.status == 200
    ensures var s1 := ToggleVisibility(s, caller, id).store;
            ToggleVisibility(s1, caller, id).reply.status == 200
            && ToggleVisibility(s1, caller, id).store == s
  {
    var s1 := ToggleVisibility(s, caller, id).store;
    var s2 := ToggleVisibility(s1, caller, id).store;
    assert s2.quizzes[id] == s.quizzes[id];
    assert s2.quizzes == s.quizzes;
  }
}
