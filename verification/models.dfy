/** The four collections of the document store (users, quizzes, questions,
    scores), their records, and the validation each schema applies when a
    record is saved. */
module Models {
  import opened Common

  // Opaque identifiers (ObjectIds), one type per collection.
  datatype UserId = UserId(raw: nat)
  datatype QuizId = QuizId(raw: nat)
  datatype QuestionId = QuestionId(raw: nat)
  datatype ScoreId = ScoreId(raw: nat)

  /** `UserRole`: `Admin` or the ordinary `User` role. */
  datatype Role = Admin | Regular

  datatype Visibility = Public | Private

  /** A user account. `password` holds the stored hash. */
  datatype User = User(
    name: string,
    username: Option<string>,
    email: Option<string>,
    password: string,
    role: Role,
    active: bool,
    library: seq<QuizId>,
    quizzes: seq<QuizId>)

  datatype Quiz = Quiz(
    title: string,
    description: string,
    time: real,
    questions: seq<QuestionId>,
    owner: UserId,
    visibility: Visibility)

  datatype Question = Question(
    text: string,
    options: seq<string>,
    correctOption: int,
    quiz: QuizId)

  /** One graded answer inside a score. */
  datatype AnswerRecord = AnswerRecord(question: QuestionId, selectedOption: int, isCorrect: bool)

  datatype Score = Score(
    quiz: QuizId,
    user: UserId,
    value: real,
    totalQuestions: nat,
    correctAnswers: nat,
    answers: seq<AnswerRecord>)

  /** The whole database: one map per collection. */
  datatype Store = Store(
    users: map<UserId, User>,
    quizzes: map<QuizId, Quiz>,
    questions: map<QuestionId, Question>,
    scores: map<ScoreId, Score>)

  /** A controller's reply together with the store it leaves behind. */
  datatype Step<M, T> = Step(reply: Reply<M, T>, store: Store)

  // ---------------------------------------------------------------------
  // Visibility enum
  // ---------------------------------------------------------------------

  /** The string the schema stores for a visibility. */
  function VisibilityName(v: Visibility): string {
    match v
    case Public => "public"
    case Private => "private"
  }

  /** The schema's enum check: only "public" and "private" name a visibility. */
  function ParseVisibility(s: string): (r: Option<Visibility>)
    ensures r.Some? <==> s == "public" || s == "private"
    ensures r.Some? ==> VisibilityName(r.value) == s
  {
    if s == "public" then Some(Public)
    else if s == "private" then Some(Private)
    else None
  }

  /** Printing and parsing a visibility are inverse. */
  lemma ParseVisibilityName(v: Visibility)
    ensures ParseVisibility(VisibilityName(v)) == Some(v)
  {
  }

  /** The visibility a quiz gets when none is given. */
  const DefaultVisibility: Visibility := Private

  // ---------------------------------------------------------------------
  // Schema validation (what a save refuses)
  // ---------------------------------------------------------------------

  /** Question schema: text required, at least two options, and a correct
      option that indexes into the options. */
  predicate ValidQuestion(q: Question) {
    && |q.text| > 0
    && |q.options| >= 2
    && 0 <= q.correctOption < |q.options|
  }

  /** Quiz schema: title and description required (a required string must be
      non-empty). Time, owner and the visibility enum are enforced by the types. */
  predicate ValidQuiz(q: Quiz) {
    |q.title| > 0 && |q.description| > 0
  }

  /** The username validator: absent, empty, or 3 to 30 characters. */
  predicate UsernameOk(u: Option<string>) {
    u.None? || |u.value| == 0 || 3 <= |u.value| <= 30
  }

  /** User schema: name required, username length, password of at least six
      characters, and at least one of username or email. */
  predicate ValidUser(u: User) {
    && |u.name| > 0
    && UsernameOk(u.username)
    && |u.password| >= 6
    && (Truthy(u.username) || Truthy(u.email))
  }

  /** The email field's setters, which run last-declared first: the custom
      setter turns a blank non-empty address into `undefined`; then the
      address is lower-cased and trimmed. Query filters on the field go
      through the same setters. */
  function StoredEmail(e: Option<string>): (r: Option<string>)
    ensures r.None? <==> e.None? || (|e.value| > 0 && |Trim(e.value)| == 0)
    ensures r.Some? ==> |r.value| == |Trim(e.value)|
    ensures r.Some? ==> forall i :: 0 <= i < |r.value| ==> !('A' <= r.value[i] <= 'Z')
  {
    if e.None? then None
    else if |e.value| > 0 && |Trim(e.value)| == 0 then None
    else
      TrimToLower(e.value);
      Some(Trim(ToLower(e.value)))
  }

  /** Storing an address that is already stored changes nothing. */
  lemma StoredEmailIdempotent(e: Option<string>)
    ensures StoredEmail(StoredEmail(e)) == StoredEmail(e)
  {
    var r := StoredEmail(e);
    if r.Some? {
      var z := r.value;
      TrimIdempotent(ToLower(e.value));
      ToLowerFixed(z);
      assert Trim(z) == z;
    }
  }

  /** The registration handler's own normalisation (trim, then lower-case)
      of a non-empty address is exactly what the schema stores. */
  lemma NormalizedEmailIsStored(x: string)
    ensures StoredEmail(Some(ToLower(Trim(x)))) == Some(ToLower(Trim(x)))
  {
    var t := Trim(x);
    var y := ToLower(t);
    ToLowerKeepsSpace(t);
    TrimFixed(y);
    ToLowerFixed(y);
  }

  /** The username field's setter: the value is trimmed. */
  function StoredUsername(u: Option<string>): (r: Option<string>)
    ensures r.Some? <==> u.Some?
    ensures r.Some? ==> Trim(r.value) == r.value && |r.value| <= |u.value|
  {
    match u
    case None => None
    case Some(x) => TrimIdempotent(x); Some(Trim(x))
  }

  /** The unique (sparse) indexes on username and email: no two accounts
      hold the same present username or the same present email. */
  predicate UniqueLogins(s: Store) {
    forall u, v :: u in s.users && v in s.users && u != v ==>
      && (s.users[u].username.Some? ==> s.users[u].username != s.users[v].username)
      && (s.users[u].email.Some? ==> s.users[u].email != s.users[v].email)
  }

  /** A non-empty set of ids has one with the least number. */
  lemma LeastIdExists(ids: set<UserId>)
    requires ids != {}
    ensures exists u :: u in ids && forall v :: v in ids ==> u.raw <= v.raw
    decreases |ids|
  {
    var x :| x in ids;
    if ids - {x} != {} {
      LeastIdExists(ids - {x});
      var m :| m in ids - {x} && forall v :: v in ids - {x} ==> m.raw <= v.raw;
      if x.raw < m.raw {
        assert forall v :: v in ids ==> x.raw <= v.raw;
      } else {
        assert forall v :: v in ids ==> m.raw <= v.raw;
      }
    } else {
      forall v | v in ids
        ensures x.raw <= v.raw
      {
        assert v !in ids - {x};
      }
    }
  }

  /** `findOne` on one user field: an account whose `field` equals
      `target`. Under a unique index there is at most one such account. A
      filter on an absent value matches every account without the field,
      and then the driver returns the first in its natural order, which the
      model takes to be the least id. */
  function FindBy(s: Store, field: User -> Option<string>, target: Option<string>): (r: Option<UserId>)
    ensures r.Some? <==> exists u :: u in s.users && field(s.users[u]) == target
    ensures r.Some? ==> r.value in s.users && field(s.users[r.value]) == target
    ensures r.Some? ==> forall v :: v in s.users && field(s.users[v]) == target ==> r.value.raw <= v.raw
  {
    var holders := set u | u in s.users && field(s.users[u]) == target;
    if holders == {} then
      assert forall u :: u in s.users && field(s.users[u]) == target ==> u in holders;
      None
    else
      LeastIdExists(holders);
      var u :| u in holders && forall v :: v in holders ==> u.raw <= v.raw;
      Some(u)
  }

  /** Would saving `u` under `id` break a unique index? */
  predicate IndexConflict(s: Store, id: UserId, u: User) {
    exists v :: v in s.users && v != id &&
      ((u.username.Some? && s.users[v].username == u.username) || (u.email.Some? && s.users[v].email == u.email))
  }

  /** A user as the schema creates it: role `User`, inactive, empty
      `library` and `quizzes` lists, and the field setters applied. */
  function NewUser(name: string, username: Option<string>, email: Option<string>, password: string): (u: User)
    ensures u.role == Regular && !u.active
    ensures u.library == [] && u.quizzes == []
    ensures u.name == name && u.password == password
    ensures u.username == StoredUsername(username) && u.email == StoredEmail(email)
  {
    User(name, StoredUsername(username), StoredEmail(email), password, Regular, false, [], [])
  }
}
