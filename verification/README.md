# Quiz backend: a verified model of its domain rules

The modelled system is an Express/Mongoose backend for online tests:

- Users register, activate their account by an emailed token, and log in.
- Owners create quizzes made of multiple-choice questions and make them public or private.
- Owners share their quizzes through signed links; other users collect quizzes in a personal library.
- A user submits one set of answers per quiz and is graded on the spot.

This project models the domain logic under the HTTP, database, token and email plumbing.

**Store.** The database is an immutable `Store` with four maps from typed ids to `User`, `Quiz`, `Question` and `Score` records.

**Handlers.** Every controller handler is a pure function `(store, caller, input) -> Step(Reply(status, message, data), store')`. The status codes and branch order are the source's, and each message key is a tag.

**Save-time rules.** The Mongoose schema rules that decide whether a save of new or changed fields succeeds are modelled, each with its error path:

- required fields, lengths and ranges;
- the email and username setters;
- the unique sparse indexes on username and email.

**Populate.** Mongoose `populate` of an array of references is `KeepPresent`: it keeps the references whose target still exists, in list order.

Files, one module each:

- `common.dfy` (`Common`) holds shared datatypes and the sequence and string operations the handlers rely on:
  - `$pull`, `$addToSet`, `indexOf`, `splice`;
  - `populate`;
  - JavaScript `trim` and `toLowerCase`.
- `models.dfy` (`Models`) holds the records, the store, and the validators, setters and defaults of the three schemas.
- `grading.dfy` (`Grading`) holds the grading loop of `submitQuiz` and the percentage.
- `quizzes.dfy`, `libraries.dfy`, `questions.dfy`, `scores.dfy`, `users.dfy` model the five controllers.
- `auth_service.dfy` (`AuthService`) models the credential resolution of `verifyUserData`.
- `validation.dfy` (`UsersValidation`) models the registration input rules and what they guarantee about the save that follows.
- `invariants.dfy` (`Invariants`) states store-wide invariants and proves which operations keep them:
  - unique logins;
  - every quiz has an existing owner;
  - one score per quiz and taker.
- `lifecycle.dfy` (`AccountLifecycle`) connects the account operations to login: a registered account can log in with what it registered with, and a deleted one cannot.

Several things are parameters because they are outside the model:

- Password hashing and comparison are function parameters: `hash`, `matches`.
- The email address pattern of the user schema and express-validator's `isEmail` are predicates: `emailOk`, `isEmail`.
- A signed token becomes its verdict: `Verified` = `Missing | Expired | Malformed | Valid(payload)`.
- Fresh ObjectIds are parameters that are not yet in use.

## Model

| member | source | states |
|---|---|---|
| Common.RemoveAll | src/controllers/librariesController.ts:58 | no occurrence of the id survives, and every other element keeps its multiplicity |
| Common.AddToSet | src/controllers/librariesController.ts:132-136 | the id is present afterwards, the old list is a prefix, at most one element is added, and an id already present is not duplicated |
| Common.IndexOf | src/controllers/questionsController.ts:96 | -1 exactly when the id is absent; otherwise the position of its first occurrence |
| Common.RemoveAt | src/controllers/questionsController.ts:103 | one entry is dropped; the entries before it are kept and the later ones shift down by one |
| Common.KeepPresent | src/controllers/quizzesController.ts:96 | a populated list is the listed references whose target exists, in list order: a subsequence of the list that keeps each existing reference as often as it is listed and drops every dangling one; it equals the list when nothing dangles |
| Common.TrimIsInfix | src/models/userSchema.ts:14 | the trimmed string is the infix of the input between its leading and trailing whitespace |
| Common.TrimIdempotent | src/validation/usersValidation.ts:5 | trimming twice is trimming once |
| Common.TrimToLower | src/models/userSchema.ts:26-27 | trimming and lower-casing commute, so the order in which the two email setters run does not matter |
| Models.ParseVisibility | src/models/quizSchema.ts:30-34 | only "public" and "private" pass the visibility enum, and the stored name is the one sent |
| Models.ParseVisibilityName | src/models/quizSchema.ts:30-34 | printing a visibility and parsing it back gives the same visibility |
| Models.StoredEmail | src/models/userSchema.ts:22-33 | the email setters: an absent or blank non-empty address is stored as absent; otherwise the stored address has the trimmed length and no capitals |
| Models.StoredEmailIdempotent | src/models/userSchema.ts:22-33 | running the setters on a stored address changes nothing |
| Models.NormalizedEmailIsStored | src/controllers/usersController.ts:18 | the handler's own trim-and-lower-case of an address is exactly what the schema stores |
| Models.StoredUsername | src/models/userSchema.ts:10-14 | the username setter keeps presence and yields a value that is its own trim and no longer than the input |
| Models.NewUser | src/models/userSchema.ts:47-63 | a new account has role User, is inactive, has empty library and quizzes lists, and stores name, password and the setter-normalised username and email |
| Grading.CountCorrectIsCardinality | src/controllers/scoresController.ts:54-60 | the running count equals the number of positions whose answer equals that question's correct option |
| Grading.ExtraAnswersIgnored | src/controllers/scoresController.ts:54-56 | answers past the last question do not change the count |
| Grading.Drafts | src/controllers/scoresController.ts:62-66 | one answer entry per question, in question order, each with the selection sent at that index and isCorrect exactly when it matches the correct option |
| Grading.Grade | src/controllers/scoresController.ts:51-67 | the forEach loop yields the count of correct answers, bounded by the number of questions, and the per-question answer list |
| Grading.Percentage | src/controllers/scoresController.ts:69 | the score is NaN exactly when there are no questions; otherwise score times total equals 100 times correct, and it lies in 0..100 |
| Grading.PercentageMonotone | src/controllers/scoresController.ts:69 | on the same quiz more correct answers never score less and strictly more score strictly more; the score is 100 exactly when a non-empty quiz is answered all correctly |
| QuizzesController.CheckCreate | src/controllers/quizzesController.ts:14-31 | 400 for a missing title, then a missing description, then a time that is not a positive number, then an unknown visibility; success exactly when all pass, and the stored visibility defaults to private |
| QuizzesController.CreateQuizAsWritten | src/controllers/quizzesController.ts:33-47 | once the checks pass, the quiz is saved before the owner is looked up |
| QuizzesController.CreateQuizAsWrittenOrphan | src/controllers/quizzesController.ts:42-47 | an unknown caller gets 404 while the saved quiz stays behind, owned by an account that does not exist |
| QuizzesController.CreateQuiz | src/controllers/quizzesController.ts:33-56 | corrected createQuiz: 404 with an unchanged store exactly when the checks pass and the caller is unknown; on 201 a valid quiz owned by the caller with no questions is added and its id is appended to the owner's quizzes, nothing else changes |
| QuizzesController.PageNumber | src/controllers/quizzesController.ts:65 | a missing or zero page means 1; any other page is kept |
| QuizzesController.PageLimit | src/controllers/quizzesController.ts:66 | a missing or zero limit means 10; any other limit is kept |
| QuizzesController.CeilDiv | src/controllers/quizzesController.ts:77 | the result is the ceiling of the quotient, for either sign of the divisor |
| QuizzesController.ListPublic | src/controllers/quizzesController.ts:65-86 | a negative skip is refused; otherwise the page holds public quizzes skip..skip+limit of the enumeration, the total counts all public quizzes, and (totalPages-1)*limit < total <= totalPages*limit |
| QuizzesController.ListPublicCovers | src/controllers/quizzesController.ts:68-74 | with a positive limit, the public quiz at position i appears on page i/limit+1 at index i%limit |
| QuizzesController.UserQuizzes | src/controllers/quizzesController.ts:128-144 | 401 without a caller; otherwise exactly the quizzes the caller owns |
| QuizzesController.GetQuizById | src/controllers/quizzesController.ts:93-121 | 404 for an unknown quiz; 403 exactly when a non-owner reads a private quiz; on 200 the quiz, the count of its existing questions (the list length when none dangles), and the visibility note exactly for the owner |
| QuizzesController.CreatedQuizIsReadable | src/controllers/quizzesController.ts:33-56 | a quiz just created is among the owner's quizzes and readable by the owner with no questions; anyone else may read it exactly when it is public |
| QuizzesController.ApplyUpdate | src/controllers/quizzesController.ts:171-175 | each field changes only when supplied and well-typed; an invalid visibility is ignored; the owner never changes |
| QuizzesController.ApplyUpdateIdempotent | src/controllers/quizzesController.ts:171-175 | applying the same update twice equals applying it once |
| QuizzesController.UpdateQuiz | src/controllers/quizzesController.ts:151-179 | 404 for an unknown quiz, 403 for a non-owner, store unchanged unless 200; on 200 only that quiz is replaced by its updated form; a valid result always saves |
| QuizzesController.UpdateQuizIdempotent | src/controllers/quizzesController.ts:171-177 | re-sending an accepted update leaves the store unchanged |
| QuizzesController.PullQuiz | src/controllers/quizzesController.ts:211-214 | the quiz id leaves both lists of a user; every other entry keeps its multiplicity and no other field changes |
| QuizzesController.DeleteCascade | src/controllers/quizzesController.ts:205-214 | exactly the quiz, the questions in its list and the scores on it are removed; every user loses the id from both lists; all other records are unchanged |
| QuizzesController.DeleteQuiz | src/controllers/quizzesController.ts:186-216 | 404 for an unknown quiz, 403 for a non-owner, each with an unchanged store; on 200 the cascade |
| QuizzesController.DeleteQuizLeavesNoReference | src/controllers/quizzesController.ts:205-214 | after a delete no quiz record, score, listed question or user list entry refers to the quiz |
| QuizzesController.Flip | src/controllers/quizzesController.ts:246 | toggling always changes the visibility |
| QuizzesController.ToggleVisibility | src/controllers/quizzesController.ts:223-252 | owner only (404/403 otherwise, store unchanged); on 200 only that quiz's visibility changes, and the reply carries the new one |
| QuizzesController.ToggleTwiceRestores | src/controllers/quizzesController.ts:246 | two toggles restore the original store |
| LibrariesController.GetUserLibrary | src/controllers/librariesController.ts:11-34 | 401 without a caller, 404 for an unknown one; on 200 the library as populated: the entries whose quiz exists, in library order and with their multiplicity |
| LibrariesController.RemoveQuizFromLibrary | src/controllers/librariesController.ts:41-69 | 200 exactly when the quiz is in the library; then every occurrence goes and nothing else changes; otherwise 404 with an unchanged store |
| LibrariesController.ShareQuiz | src/controllers/librariesController.ts:76-98 | 400 without a quiz id; a token exactly when the caller owns the quiz, and the token carries the quiz and the caller |
| LibrariesController.RedeemToken | src/controllers/librariesController.ts:105-148 | 400 for a missing token, 401 for an expired or bad one, 403 for an admin; otherwise the quiz is added with set semantics and the quiz itself is not looked up |
| LibrariesController.AddPublicQuiz | src/controllers/librariesController.ts:152-192 | 400 without a quiz id, 403 for an admin, 404 for a missing or private quiz; otherwise the quiz is added with set semantics, nothing else changes |
| LibrariesController.GetQuizFromLibrary | src/controllers/librariesController.ts:199-231 | 200 with the quiz exactly when it is in the caller's library and still exists |
| LibrariesController.ShareThenRedeem | src/controllers/librariesController.ts:85-136 | a token from the owner, redeemed by a non-admin, puts the quiz in the library; redeeming again changes nothing |
| LibrariesController.AddedQuizIsInLibrary | src/controllers/librariesController.ts:152-192 | a public quiz just added is listed in the caller's library and can be opened from it |
| LibrariesController.AddThenRemove | src/controllers/librariesController.ts:56-65 | adding a public quiz and then removing it leaves the rest of the library's multiset as before, without the quiz |
| QuestionsController.GetQuestionsByQuizId | src/controllers/questionsController.ts:18-28 | 404 for an unknown quiz, 201 when no listed question exists, otherwise 200 with the existing listed questions in list order and with their multiplicity |
| QuestionsController.AddQuestion | src/controllers/questionsController.ts:35-66 | 400 when quiz id or text is missing, options are absent or falsy, or the correct option is undefined (0 and null are accepted); then 404 for an unknown quiz and 403 for a non-owner; 500 when the options are not an array, the correct option is null or the schema refuses the question; on 200 the question sent is stored and its id appended at the end of the quiz's list |
| QuestionsController.DeleteQuestion | src/controllers/questionsController.ts:79-106 | 403 for a non-owner, 404 when the id is not listed; on 200 the record goes and exactly the first occurrence is spliced out of the list |
| QuestionsController.AddThenDeleteRestores | src/controllers/questionsController.ts:95-104 | adding a question and deleting it restores the store |
| QuestionsController.ApplyQuestionUpdate | src/controllers/questionsController.ts:133-135 | text changes only when truthy, options only when an array is sent, correct option only when a number is sent; the parent quiz never changes |
| QuestionsController.UpdateQuestion | src/controllers/questionsController.ts:119-139 | 404 for an unknown question, 403 unless the caller owns the existing parent quiz; 500 exactly when the correct option is null or the updated question fails the schema; on 200 only that question is replaced |
| QuestionsController.ApplyQuestionUpdateIdempotent | src/controllers/questionsController.ts:133-135 | applying the same question update twice equals applying it once |
| QuestionsController.UpdateQuestionIdempotent | src/controllers/questionsController.ts:133-137 | re-sending an accepted question update succeeds and leaves the store unchanged |
| QuestionsController.GetQuestionById | src/controllers/questionsController.ts:146-160 | 404 exactly for an unknown question; otherwise the record |
| QuestionsController.AddedQuestionIsFound | src/controllers/questionsController.ts:53-61 | a question just added is found by id with the text, options and correct option sent, under its quiz |
| QuestionsController.AddedQuestionIsListed | src/controllers/questionsController.ts:53-61 | a question just added is listed under its quiz, as the last entry of the quiz's list |
| ScoresController.SubmitGuard | src/controllers/scoresController.ts:17-47 | the guards in source order, each message exactly under its condition: 401 without a caller, 404 for an unknown user, 403 "users only" for a non-User role, 403 "not in library" for a quiz missing from the populated library, 403 "already submitted" for an existing score; the 404 for a missing quiz is never reached |
| ScoresController.SavedAnswers | src/controllers/scoresController.ts:54-67 | one saved answer per question, in order, with the sent selection and isCorrect exactly when it matches |
| ScoresController.Scored | src/controllers/scoresController.ts:69-80 | the save is refused exactly when there are no questions or an answer is missing; otherwise the score names quiz and taker, counts the correctly answered positions, and has correct <= total and 0 <= score <= 100 |
| ScoresController.SubmitQuiz | src/controllers/scoresController.ts:12-88 | each guard status exactly when its condition holds, 500 exactly when the score cannot be saved; on 200 exactly the graded score is added |
| ScoresController.SecondSubmissionRejected | src/controllers/scoresController.ts:39-42 | after one accepted submission, another by the same user for the same quiz is a 403 that changes nothing |
| ScoresController.GetSingleScore | src/controllers/scoresController.ts:91-119 | a score is returned exactly when it belongs to the caller |
| ScoresController.GetAllScores | src/controllers/scoresController.ts:126-153 | 404 exactly when the caller has no score; otherwise exactly the caller's scores |
| ScoresController.DeleteScore | src/controllers/scoresController.ts:160-187 | 401, 404 for an unknown score, 403 unless the caller owns the score's quiz; on 200 exactly that score is removed and nothing else changes |
| ScoresController.GetQuizScores | src/controllers/scoresController.ts:194-234 | 404 when the caller owns no quiz; 200 exactly when a score on an owned quiz exists, and then exactly those scores |
| ScoresController.SubmittedScoreIsListed | src/controllers/scoresController.ts:134-153 | an accepted submission can be read back by its taker and appears in the taker's list and in the quiz owner's examiner view |
| ScoresController.DeletedScoreIsGone | src/controllers/scoresController.ts:185 | after deletion no caller can read the score and a second deletion is a 404 |
| UsersController.NormalizeEmail | src/controllers/usersController.ts:18 | a truthy address is trimmed and lower-cased, anything else becomes undefined; the result is a fixed point of the schema setters |
| UsersController.Register | src/controllers/usersController.ts:14-79 | 409 for a taken username, then 409 for a taken normalised email; 201 exactly when both lookups pass, a password is sent and the schema and indexes accept the new account; then exactly that account is added, and the message says whether an email was given |
| UsersController.RegisterUserAsWritten | src/controllers/usersController.ts:20-23 | 409 "username exists" exactly when some account's username equals the setter's value of the sent username, even when none was sent |
| UsersController.RegisterUser | src/controllers/usersController.ts:14-79 | corrected registerUser: 409 "username exists" only for a sent username that is taken; store unchanged unless 201; on 201 the new account stores the normalised email and username |
| UsersController.RegisterEmailConflict | src/controllers/usersController.ts:25-30 | 409 "email exists" exactly when the username check passed and some account holds the trimmed, lower-cased non-blank address |
| UsersController.UsernameLookupWithoutUsername | src/controllers/usersController.ts:20-23 | a store with one username-less account and a username-less registration with a fresh email: the handler as written answers 409, the corrected one 201 |
| UsersController.ActivateAccount | src/controllers/usersController.ts:82-139 | 404 for a missing token or unknown user, 401 with distinct messages for an expired or a bad token, 201 with no change for an active account; on 200 only the active flag of that account is set |
| UsersController.ActivateTwice | src/controllers/usersController.ts:97-102 | activating twice: the second call is a 201 that changes nothing |
| UsersController.ApplyUserUpdate | src/controllers/usersController.ts:214-230 | name and username change only when truthy, the email only when it differs as sent, and the account stays active exactly when the email does not change |
| UsersController.UpdateUser | src/controllers/usersController.ts:205-266 | 404 for an unknown caller; 409 when the username lookup returns another account, then when the lookup of a changed email returns another account; on 200 only the caller's account is replaced and it passes schema and indexes |
| UsersController.HeldByOtherUnique | src/controllers/usersController.ts:217-227 | with unique logins and a non-blank value, each lookup returns another account exactly when another account holds the value |
| UsersController.BlankEmailUpdateFindsCaller | src/controllers/usersController.ts:224-229 | with two accounts without an email, a blank email sent by the first finds the first itself: no 409, the email stays unset and the account is deactivated |
| UsersController.UpdateEmailDeactivates | src/controllers/usersController.ts:224-230 | a changed email deactivates the account, so a later activation succeeds; otherwise the active flag is kept |
| UsersController.DeleteAccount | src/controllers/usersController.ts:273-288 | the cascade always runs: exactly the caller's quizzes, the questions and scores on them, and the caller's scores go; 404 exactly when the account did not exist; nothing else changes |
| UsersController.DeleteAccountLeavesNoTrace | src/controllers/usersController.ts:277-288 | afterwards nothing refers to the account and no question or score refers to a deleted quiz; deleting again is a 404 that changes nothing |
| Models.FindBy | src/services/authService.ts:19-29 | finds an account exactly when one holds the value, and of several holders the one with the least id |
| AuthService.ByEmail | src/services/authService.ts:20 | the email lookup goes through the setters: it finds the account holding the stored form of the address, the only one when the address is not blank; a blank address is sent as a missing email and finds an account without an email |
| AuthService.ByUsername | src/services/authService.ts:25 | the username lookup finds exactly the account holding the trimmed username |
| AuthService.Resolve | src/services/authService.ts:19-29 | the email wins when given, otherwise the username; 404 with the matching message when no account holds it |
| AuthService.VerifyUserData | src/services/authService.ts:7-42 | 400 without a password, 400 without email and username, 404 for an unknown email or username; success only with a matching password for the account holding the login |
| AuthService.VerifyUserDataResolvesHolder | src/services/authService.ts:19-39 | for the account holding the login, a matching password logs it in and a wrong one is a 401 |
| AuthService.BlankEmailFindsAccountWithoutEmail | src/services/authService.ts:19-23 | a truthy blank email is a 404 exactly when every account has an email; otherwise the password is checked against the account without an email that the lookup returns |
| AuthService.ResolveDependsOnLogins | src/services/authService.ts:19-29 | the lookup reads nothing but ids, usernames and emails |
| AuthService.VerifyUserDataDependsOnLogins | src/services/authService.ts:7-42 | verification reads nothing but ids, usernames, emails and password hashes |
| AuthService.VerifyUserDataIgnoresActive | src/services/authService.ts:7-42 | changing an account's active flag never changes the outcome of verification |
| UsersValidation.RegisterRoute | src/routers/usersRouter.ts:16-23 | 422 with a validation message and an unchanged store exactly when the input rules fail; otherwise the handler as written runs on the trimmed body |
| UsersValidation.SanitizedUsernameOk | src/validation/usersValidation.ts:11-17 | a username that passes the rules passes the schema length check unchanged by the setter |
| UsersValidation.NormalizedEmailAccepted | src/models/userSchema.ts:34-39 | a non-blank address the schema pattern accepts is stored as normalised and passes the email validator |
| UsersValidation.SanitizedAccountValid | src/validation/usersValidation.ts:3-37 | the account built from a body that passes the rules satisfies every user schema validator |
| UsersValidation.LookupsCoverIndexes | src/controllers/usersController.ts:20-30 | when both duplicate lookups find nothing, the new account breaks no unique index |
| UsersValidation.ValidRegistrationIsSaved | src/validation/usersValidation.ts:3-37 | a body that passes the rules is registered or refused as a duplicate, never rejected by the schema |
| Invariants.SaveKeepsUniqueLogins | src/models/userSchema.ts:10-27 | saving an account that conflicts with no unique index keeps usernames and emails unique |
| Invariants.RegisterKeepsUniqueLogins | src/controllers/usersController.ts:20-43 | registration keeps usernames and emails unique |
| Invariants.UpdateKeepsUniqueLogins | src/controllers/usersController.ts:216-264 | a profile update keeps usernames and emails unique |
| Invariants.ActivateKeepsUniqueLogins | src/controllers/usersController.ts:101-102 | activation keeps usernames and emails unique |
| Invariants.RegisterKeepsOwners | src/controllers/usersController.ts:34-43 | registration keeps every quiz owned by an existing account |
| Invariants.CreateQuizKeepsOwners | src/controllers/quizzesController.ts:33-54 | the corrected createQuiz keeps every quiz owned by an existing account |
| Invariants.CreateQuizAsWrittenBreaksOwners | src/controllers/quizzesController.ts:42-47 | createQuiz as written, called by an unknown caller, leaves a quiz without an existing owner |
| Invariants.DeleteAccountKeepsOwners | src/controllers/usersController.ts:277-285 | deleting an account keeps every remaining quiz owned by an existing account |
| Invariants.DeleteQuizKeepsOwners | src/controllers/quizzesController.ts:205-209 | deleting a quiz keeps every remaining quiz owned by an existing account |
| Invariants.SubmitKeepsOneScorePerTaker | src/controllers/scoresController.ts:39-42 | submission keeps at most one score per quiz and taker |
| AccountLifecycle.RegisteredUserCanLogIn | src/services/authService.ts:19-39 | after a successful registration, logging in with the same email (if not blank), username and a matching password resolves to the new account |
| AccountLifecycle.DeletedAccountCannotLogIn | src/controllers/usersController.ts:277-288 | after an account is deleted, credentials naming its email or username get a 404 whatever the password, and logins stay unique |

## Left out

- UsersController.RegisterUser: its own contract is deliberately thinner. The full success condition and the 409 email case are proved on UsersController.Register, which is RegisterUser's body with the lookup decided. The email case in raw-input terms is proved by UsersController.RegisterEmailConflict.
- Grading.CountCorrect: its own contract only bounds the count. Grading.CountCorrectIsCardinality states what it counts.
- QuizzesController.GetQuizById: questionCount is the number of listed questions that still exist. It equals the list length only when no reference dangles, because that is what populate leaves.
- Email sending and template rendering are left out of every handler, so their failure paths are not modelled:
  - registerUser, where the account is already saved when sending fails;
  - activateAccount;
  - updateUser's 500 on a failed send;
  - deleteAccount.
- JWT signing, verification and expiry are left out: a token is its verdict. bcrypt hashing and comparison are function parameters.
- `ObjectId.isValid` checks and their 400 replies are left out: ids are typed and always well-formed.
- The email regex of the user schema and express-validator's `isEmail` are predicate parameters, because they are regular-expression libraries. `normalizeEmail` is left out for the same reason: `RegisterRoute` passes the email on as sent.
- `toLowerCase` is modelled on ASCII letters only, and `trim` on the ASCII and common Unicode blanks.
- The password field's schema `trim` setter is left out: the stored value is the hash.
- Several handlers save a whole document after changing only a list or a flag, so the schema validators run again on fields that were not changed. These saves are modelled as always succeeding, because they can fail only on a record that was already invalid:
  - activateAccount's save of the account;
  - createQuiz's save of the owner after pushing the quiz (src/controllers/quizzesController.ts:54);
  - toggleQuizVisibility's save of the quiz (src/controllers/quizzesController.ts:248);
  - addQuestionToQuiz's save of the quiz after the question is stored (src/controllers/questionsController.ts:64);
  - deleteQuestionFromQuiz's save of the quiz (src/controllers/questionsController.ts:104);
  - removeQuizFromLibrary's save of the account (src/controllers/librariesController.ts:65).
- Models.FindBy: when several accounts match (only a blank email, sent as a missing email, can do that), the model returns the least id. The driver returns the first in its natural order, which the model does not represent.
- Question bodies with a correct option that is a numeric string or not an integer are left out: the correct option is `undefined`, `null` or an integer, because Mongoose number casting and floats are outside the model.
- submitQuiz with an `answers` value that is not an array, and selections that are not integers, are left out: answers are a sequence of optional integers.
- The optional checks of the validation chain (`checkFalsy`) and the email-or-username rule are evaluated on the body as sent. Whether the trim sanitiser has already run when these checks read the body is not modelled.
- resendActivationEmail and getUserById (usersController), and authController with the auth middleware, are left out: they are plumbing around a lookup.
- Mongoose sort order is not modelled. The public listing takes the database's enumeration of public quizzes as a parameter, and JavaScript float rounding of the percentage is replaced by exact reals.
- Concurrency is left out: each handler is atomic, so the check-then-insert race of submitQuiz and the non-transactional cascades are not modelled.

## Findings

| source | as written | input that shows it | evidently intended | confidence | as-written member | corrected member |
|---|---|---|---|---|---|---|
| src/controllers/quizzesController.ts:33-47 | createQuiz saves the quiz, then looks up the caller and answers 404 if the account is missing | a well-formed quiz body sent by a caller id whose account does not exist (lemma QuizzesController.CreateQuizAsWrittenOrphan) | look the owner up first, so a 404 stores nothing and every quiz has an existing owner | high, not executed | QuizzesController.CreateQuizAsWritten | QuizzesController.CreateQuiz |
| src/controllers/usersController.ts:20-23 | registerUser runs `findOne({ username })` even when no username was sent; the undefined value then matches every account without a username | a store holding one account without a username, plus a registration with no username and a new email (lemma UsersController.UsernameLookupWithoutUsername) | check the username only when one is sent, so a second username-less account can register | medium (depends on how the driver serialises undefined), not executed | UsersController.RegisterUserAsWritten | UsersController.RegisterUser |
