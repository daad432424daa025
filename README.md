# Q&A Hub content and engagement layer in Dafny

This project models the content and engagement layer of Q&A Hub, a Next.js
question-and-answer board. Signed-in users create groups, ask questions in a
group, answer them with text or a recorded audio clip, and like questions and
answers.

**Server side.** The model covers the route handlers that validate input and
read or write the four tables (groups, questions, answers, likes):

- The store is a `Db.Store` class with one field per table.
- Each `POST` handler is a module-level method that takes the store as a parameter (`db: Store`), changes only the tables it writes, and returns a status datatype (`Http.Response`).
- The read-only handlers are functions (`LikesCheckRoute.Check`) or methods that change nothing (`QuestionsRoute.Get`, `GroupsRoute.Get`).

**Client side.** The model also covers the client code that mirrors the server:

- the optimistic like counters of `useLike` and of the question detail modal;
- the answer form: its duration display, dictation, payload and submit and close handlers;
- the sign-in page's field and e-mail-domain checks.

**The like ledger.** Likes are a set of rows. The store's unique key is
(refId, userId). The toggle and the check look rows up by that key alone, and
the `type` of the request plays no part in the lookup. The like counts the
handlers report select rows by (refId, type). The model makes the mismatch
explicit:

- `Ledger.CountAfterDelete`: an unlike lowers the count of the stored row's type, whatever type the request named.
- `LikesCheckRoute.CheckDisagreesWithCount`: the check says "liked" under a type whose count does not include the caller.
- `Counters.BumpDriftsOnTypeMismatch`: the client's optimistic counter drifts by one in that case.

**Proved properties.** The handlers' postconditions tie each response and
each new store state to specification functions (`LikesRoute.Toggle`,
`AnswersRoute.Validate`, `QuestionsRoute.Select`). The list handlers state
that the response is a permutation of the selected rows, ordered by the
predicates `Ordering.SortedDesc` and, for `popular`, `Ordering.TiesSortedDesc`.
Their bodies order the rows with `Ordering.SortDesc`, a stable insertion
sort. The lemmas prove what the code promises about these functions:

- from "not liked", toggling twice restores the ledger; from "liked", it restores whether the key holds a row (the row is re-created with the second call's id, type and time);
- the ledger keeps at most one row per key;
- the question list is a permutation of the filtered rows, in the right order;
- `popular` is a stable sort that keeps newest-first among ties;
- a payload with non-blank text or an uploaded URL passes the server's validation (a recording whose upload returns no URL, with no text, is rejected);
- the `m:ss` display reads back to the seconds counted;
- the `useLike` button and the question's like button in the detail modal never have two requests in flight (`UseLike.DoubleToggleSendsOnce`, `QuestionDetail.DoubleLikeSendsOnce`); the answers' like buttons in that modal have no such guard, and nothing is proved about them.

**Client handlers across an `await`.** A client handler that sets a flag,
awaits a request and clears the flag is two methods: one that sends the
request and one that applies its reply (`ToggleLike` and `OnToggleReply`).
Any other method may run between the two, as in the browser.

Conventions:

- Times are integers.
- Ids and timestamps that the store generates are parameters of the handlers, and a new id must be fresh.
- A required JSON string field that is absent is the empty string, since every handler treats `undefined` and `""` alike. Optional fields are `Option`.
- Replies from `fetch`, `signIn`, the microphone and speech recognition are parameters of the client methods.
- `Text.Trim` removes JavaScript's whitespace and line-terminator characters, as `String.prototype.trim` does.

## Model

| member | source | states |
|---|---|---|
| Types.ParseLikeType | src/types/index.ts:56-58 | a like type is exactly one of QUESTION or ANSWER: only those two names parse, and each parses back to its own name |
| Types.RefersToContent | src/types/index.ts:58-59 | a like refers to content when its refId is the id of a question for type QUESTION, or of an answer for type ANSWER |
| Types.LikeTypeRoundTrip | src/types/index.ts:58 | naming a like type and reading it back gives the same type |
| Http.CallerId | src/app/api/likes/route.ts:7-10 | the caller id exists exactly when the session has a user with a non-empty id (`!session?.user?.id` fails) |
| Text.Trim | src/app/api/groups/route.ts:42-48 | the trimmed string is no longer than the input, is empty exactly when the input is all whitespace, and has no whitespace at either end |
| Text.TrimIdempotent | src/app/api/answers/route.ts:16-26 | trimming an already trimmed string changes nothing |
| Text.TrimOpt | src/app/api/groups/route.ts:49 | `description?.trim()`: absent stays absent, and a present value becomes its trim |
| Text.NatToString | src/components/questions/SimpleAnswerModal.tsx:198 | `toString` of a non-negative integer is one or more digits, one digit below 10 and two digits from 10 to 99 |
| Text.ParseNatToString | src/components/questions/SimpleAnswerModal.tsx:198 | reading back the decimal digits of n gives n |
| Text.PadStart | src/components/questions/SimpleAnswerModal.tsx:198 | `padStart` gives max(width, length) characters, ending with the input and starting with fill characters |
| Ledger.LikeCount | src/app/api/questions/route.ts:60-65 | `like.count({ where: { refId, type } })`: zero exactly when no row has that refId and type |
| Ledger.Unliked | src/app/api/likes/route.ts:28-33 | after the delete the caller holds no row on the reference, and no row with another key changes |
| Ledger.Toggled | src/app/api/likes/route.ts:19-44 | the toggle flips whether the (refId, caller) key holds a row, changes no other key, and keeps at most one row per key |
| Ledger.RowsOfSingle | src/app/api/likes/route.ts:19-26 | under the unique key, the `findUnique` lookup finds exactly one row when it finds any |
| Ledger.ToggleTwiceFromUnliked | src/app/api/likes/route.ts:28-44 | like then unlike restores exactly the original ledger |
| Ledger.ToggleTwiceFromLiked | src/app/api/likes/route.ts:28-44 | unlike then like restores the key's row, re-created with the second call's id, type and time |
| Ledger.CountAfterInsert | src/app/api/likes/route.ts:36-42 | inserting a like raises the count of its type on the reference by one and leaves the other type's count alone |
| Ledger.CountAfterDelete | src/app/api/likes/route.ts:28-33 | an unlike lowers the count of the stored row's type by one, whatever type the request named |
| Ledger.CountElsewhereUnchanged | src/app/api/likes/route.ts:30-42 | a toggle on one reference changes no count on any other reference |
| Db.Occurrences | src/app/api/questions/route.ts:50-52 | `_count` of a relation: the number of child rows pointing at the parent, at most the number of rows, and zero exactly when no row points at it |
| Db.AnswerTotalZero | src/app/api/questions/route.ts:120-122 | a question with no answer row has an answer count of zero |
| Db.QuestionTotalZero | src/app/api/groups/route.ts:56-58 | a group with no question row has a question count of zero |
| Db.Store.constructor | src/types/index.ts:9-63 | the empty store satisfies every store invariant |
| LikesRoute.Toggle | src/app/api/likes/route.ts:5-48 | 401 with no caller id and 400 with a missing type or refId, leaving the ledger unchanged; 500 exactly when a new row would carry a type outside the enum; otherwise `liked` is the key's new state and the opposite of its old one; only the caller's key changes; keys stay unique |
| LikesRoute.ToggleIsTransition | src/app/api/likes/route.ts:34-44 | a successful well-typed request performs exactly the ledger's toggle transition |
| LikesRoute.ToggleTwiceRestoresLiked | src/app/api/likes/route.ts:28-44 | two successful toggles of the same request restore whether the caller likes the reference |
| LikesRoute.ToggleTwiceRestoresLedger | src/app/api/likes/route.ts:28-44 | starting from "not liked", the second toggle answers `liked: false` and restores the original ledger |
| LikesRoute.DanglingReferenceAccepted | src/app/api/likes/route.ts:36-42 | the handler inserts a like whose refId names no question or answer of the store |
| LikesRoute.Post | src/app/api/likes/route.ts:5-49 | the handler's response and new ledger are those of `Toggle`, and the store invariants are kept |
| LikesCheckRoute.Check | src/app/api/likes/check/route.ts:5-33 | 401 with no caller id; 400 with a missing type or refId; otherwise `liked` is true exactly when a row with the (refId, caller) key exists, of any type |
| LikesCheckRoute.CheckIgnoresType | src/app/api/likes/check/route.ts:13-29 | the answer is the same whichever present type is asked about |
| LikesCheckRoute.CheckAfterToggle | src/app/api/likes/check/route.ts:29 | right after a successful toggle, the check reports the toggle's own `liked` |
| LikesCheckRoute.CheckDisagreesWithCount | src/app/api/likes/check/route.ts:20-29 | a caller holding a row of one type is reported as liking under the other type, yet is not among the rows counted for that type |
| AnswersRoute.Validate | src/app/api/answers/route.ts:16-22 | a body passes exactly when it has non-blank text or a non-empty audio URL and a question id; the content error comes before the question-id error |
| AnswersRoute.AudioOnlyAccepted | src/app/api/answers/route.ts:16 | an answer with only an audio URL passes validation |
| AnswersRoute.TrimKeepsContent | src/app/api/answers/route.ts:16-26 | trimming the stored text keeps whether the answer has content |
| AnswersRoute.Post | src/app/api/answers/route.ts:6-58 | 401 without a caller id, the validation's 400, a 500 for a missing question, nothing written on failure; otherwise the appended row has trimmed text, the audio URL verbatim and the caller as author, and is returned with its ANSWER like count |
| QuestionsRoute.WhereClause | src/app/api/questions/route.ts:18-32 | the group filter is set exactly when `groupId` is truthy and the text filter exactly when `query` is |
| QuestionsRoute.SortBy | src/app/api/questions/route.ts:16 | the list is sorted by likes only when `sortBy` is exactly "popular"; an absent or empty parameter means "recent" |
| QuestionsRoute.Select | src/app/api/questions/route.ts:41-42 | a question is selected exactly when it is in the table and matches the where clause |
| QuestionsRoute.SearchReadsTextAndGroupOnly | src/app/api/questions/route.ts:27-32 | whether a question matches depends only on its text and its group |
| QuestionsRoute.MatchesParams | src/app/api/questions/route.ts:23-32 | a question matches exactly when it has the requested group and its text contains the query case-insensitively, each only when given |
| QuestionsRoute.WithCounts | src/app/api/questions/route.ts:58-75 | the counted question equals the stored one apart from `_count`, its likes are the ledger rows with its id and type QUESTION, and its answers are the number of answer rows with its id (`AnswerTotal`) |
| QuestionsRoute.Get | src/app/api/questions/route.ts:6-87 | 401 without a session user; otherwise a permutation of the filtered questions, each with its counts, newest first; for `popular`, by likes non-increasing with newest first among equal likes |
| QuestionsRoute.Validate | src/app/api/questions/route.ts:99-105 | a body passes exactly when its text is not blank and it has a group id; the text error comes first |
| QuestionsRoute.Post | src/app/api/questions/route.ts:89-148 | 401 without a caller id, the validation's 400, a 500 for a missing group, nothing written on failure; otherwise the appended row has the trimmed text and the caller as author and is returned with its counts, zero answers |
| GroupsRoute.WithCount | src/app/api/groups/route.ts:18-20 | the counted group equals the stored one apart from `_count`, which holds its number of questions |
| GroupsRoute.Get | src/app/api/groups/route.ts:6-30 | 401 without a session user; otherwise a permutation of all groups, each with its question count, newest first |
| GroupsRoute.Validate | src/app/api/groups/route.ts:42-44 | a body passes exactly when its name is not blank |
| GroupsRoute.Post | src/app/api/groups/route.ts:32-67 | 401 without a caller id, 400 for a blank name, nothing written on failure; otherwise the appended row has the trimmed name, the trimmed or absent description and the caller as author, and is returned with status 201 and zero questions |
| Ordering.Map | src/app/api/questions/route.ts:58-75 | the mapped list has the same length, each element the image of the one at its index |
| Ordering.SortDescPermutes | src/app/api/questions/route.ts:79 | sorting is a permutation |
| Ordering.SortDescSorted | src/app/api/questions/route.ts:79 | the sorted list's keys are non-increasing |
| Ordering.SortDescStable | src/app/api/questions/route.ts:79 | elements with equal keys keep their relative order |
| Ordering.SortDescKeepsTieOrder | src/app/api/questions/route.ts:78-80 | re-sorting a newest-first list by likes keeps newest first among equal likes |
| Ordering.SortDescMap | src/app/api/questions/route.ts:41-75 | adding counts after ordering gives the same list as ordering the counted rows, since counting leaves the sort key unchanged |
| Counters.Bump | src/hooks/useLike.ts:52 | the question counter moves by exactly one, up on liked and down on unliked |
| Counters.ClampedBump | src/components/questions/QuestionDetailModal.tsx:97-102 | the answer counter moves up by one on liked and down by one on unliked, but never below zero: an unlike at zero or below gives 0 |
| Counters.BumpUndo | src/hooks/useLike.ts:52 | like then unlike, or unlike then like, gives back the count |
| Counters.BumpBelowZero | src/hooks/useLike.ts:52 | the question counter has no floor: an unlike at zero shows -1 |
| Counters.ClampedBumpUndo | src/components/questions/QuestionDetailModal.tsx:100-102 | like then unlike restores a non-negative count, and an unlike at zero stays at zero |
| Counters.BumpTracksLedger | src/hooks/useLike.ts:49-53 | when the caller's row has the type the client toggles, the bumped count equals the server's count after the toggle |
| Counters.BumpDriftsOnTypeMismatch | src/hooks/useLike.ts:46-52 | when the caller's row has the other type, the server's count does not move but the client's counter drops by one |
| UseLike.LikeState.constructor | src/hooks/useLike.ts:12-15 | the count starts at `initialCount` (default 0), not liked, not loading |
| UseLike.LikeState.CheckLikeStatus | src/hooks/useLike.ts:19-31 | the status is asked for only with a current user, and only an OK reply changes `isLiked` |
| UseLike.LikeState.ToggleLike | src/hooks/useLike.ts:36-47 | no request while loading or without a user; otherwise it sends `{type, refId}` and sets loading; at most one request is in flight, exactly while loading |
| UseLike.LikeState.OnToggleReply | src/hooks/useLike.ts:49-58 | an OK reply sets `isLiked` and bumps the count; a failure changes neither; loading ends false and the request is no longer in flight |
| UseLike.DoubleToggleSendsOnce | src/hooks/useLike.ts:37-39 | two clicks before the first reply send one request, the second click nothing |
| QuestionDetail.LikesOrZero | src/components/questions/QuestionDetailModal.tsx:25 | `_count?.likes` or 0 when absent |
| QuestionDetail.AnswerLikes | src/components/questions/QuestionDetailModal.tsx:101 | an answer's shown likes, or 0 when it has no count |
| QuestionDetail.WithAnswerLike | src/components/questions/QuestionDetailModal.tsx:94-106 | same length, order and ids; answers with another id untouched; matching answers differ only in a count moved by one and clamped at zero |
| QuestionDetail.AnswerLikesStayNonNegative | src/components/questions/QuestionDetailModal.tsx:100-102 | no answer counter goes negative through like replies |
| QuestionDetail.DetailState.constructor | src/components/questions/QuestionDetailModal.tsx:23-27 | no answers, not loading, the counter from the question's count or 0, not liked, not liking |
| QuestionDetail.DetailState.FetchQuestionDetails | src/components/questions/QuestionDetailModal.tsx:29-32 | requests the question's own id and sets loading; nothing stops a second fetch |
| QuestionDetail.DetailState.OnQuestionDetails | src/components/questions/QuestionDetailModal.tsx:33-42 | an OK body replaces answers and counter, defaulting to [] and 0; a failure keeps both; loading ends false |
| QuestionDetail.DetailState.HandleLike | src/components/questions/QuestionDetailModal.tsx:51-65 | no request while liking; otherwise it sends a QUESTION like for the question and sets liking; at most one request is in flight, exactly while liking |
| QuestionDetail.DetailState.OnLikeReply | src/components/questions/QuestionDetailModal.tsx:67-76 | an OK reply sets `isLiked` and moves the counter with no floor; a failure changes neither; liking ends false |
| QuestionDetail.DoubleLikeSendsOnce | src/components/questions/QuestionDetailModal.tsx:52-54 | two clicks on the question's like before the first reply send one request |
| QuestionDetail.DetailState.HandleAnswerLike | src/components/questions/QuestionDetailModal.tsx:79-110 | sends an ANSWER like for the id; an OK reply applies `WithAnswerLike`; a failure keeps the answers |
| SimpleAnswer.FormatDuration | src/components/questions/SimpleAnswerModal.tsx:195-199 | the display is the minutes, a colon and exactly two seconds digits; four characters below ten minutes |
| SimpleAnswer.ParseDuration | src/components/questions/SimpleAnswerModal.tsx:195-199 | a readable display ends in a colon and two digits |
| SimpleAnswer.PaddedSeconds | src/components/questions/SimpleAnswerModal.tsx:197-198 | seconds below 60 display as exactly two digits, zero-padded, that read back to the seconds |
| SimpleAnswer.FormatDurationRoundTrip | src/components/questions/SimpleAnswerModal.tsx:195-199 | the `m:ss` display reads back to the seconds counted: minutes times 60 plus seconds below 60 |
| SimpleAnswer.NoFinalNoText | src/components/questions/SimpleAnswerModal.tsx:53-58 | interim recognition results contribute nothing |
| SimpleAnswer.FinalsSplit | src/components/questions/SimpleAnswerModal.tsx:53-58 | collecting final results in two stretches gives the same text as in one |
| SimpleAnswer.CollectFinal | src/components/questions/SimpleAnswerModal.tsx:51-58 | the loop returns the final transcripts from `resultIndex` on, concatenated in order |
| SimpleAnswer.Appended | src/components/questions/SimpleAnswerModal.tsx:60-62 | empty dictation changes nothing; otherwise the old text, then one space only if the old text is non-empty, then the new text |
| SimpleAnswer.RecognitionErrorMessage | src/components/questions/SimpleAnswerModal.tsx:66-88 | a message is shown exactly for not-allowed, no-speech, and network while recording, each with its own text |
| SimpleAnswer.SubmitDisabled | src/components/questions/SimpleAnswerModal.tsx:436 | the submit button is disabled exactly while loading, or when the text is all whitespace and there is no recording |
| SimpleAnswer.BuildPayload | src/components/questions/SimpleAnswerModal.tsx:234-238 | the question id always; the text only when its trim is non-empty, sent trimmed; the audio URL only when the upload produced a non-empty one |
| SimpleAnswer.PayloadAccepted | src/components/questions/SimpleAnswerModal.tsx:234-238 | a payload with text or an uploaded URL passes the answers route's validation, and the server stores its text as sent |
| SimpleAnswer.RecordingWithoutUrlRejected | src/components/questions/SimpleAnswerModal.tsx:203-238 | a recording passes the form's guard, but an upload reply without a URL and no text leaves a payload the server rejects for missing content |
| SimpleAnswer.UploadError | src/components/questions/SimpleAnswerModal.tsx:225-227 | a refused upload shows "Failed to upload audio", a thrown one its own message |
| SimpleAnswer.CreateError | src/components/questions/SimpleAnswerModal.tsx:248-259 | a refused answer always shows a non-empty message: the server's `error` when truthy, otherwise "Failed to submit answer"; a thrown one its own message |
| SimpleAnswer.AnswerForm.constructor | src/components/questions/SimpleAnswerModal.tsx:19-29 | an empty form: no text, no recording, no blob, not loading, no error, duration 0 |
| SimpleAnswer.AnswerForm.OnResult | src/components/questions/SimpleAnswerModal.tsx:50-63 | the answer text becomes the old text with the event's final transcript appended |
| SimpleAnswer.AnswerForm.OnRecognitionStart | src/components/questions/SimpleAnswerModal.tsx:44-47 | dictation is marked running |
| SimpleAnswer.AnswerForm.OnRecognitionEnd | src/components/questions/SimpleAnswerModal.tsx:90-93 | dictation is marked stopped |
| SimpleAnswer.AnswerForm.OnRecognitionError | src/components/questions/SimpleAnswerModal.tsx:66-88 | dictation stops, and the error becomes the code's message when it has one |
| SimpleAnswer.AnswerForm.StartAudioRecording | src/components/questions/SimpleAnswerModal.tsx:117-158 | with microphone access the recorder runs and the timer restarts at 0; without it only the error changes |
| SimpleAnswer.AnswerForm.Tick | src/components/questions/SimpleAnswerModal.tsx:149-151 | each timer tick adds one second |
| SimpleAnswer.AnswerForm.OnRecorderStop | src/components/questions/SimpleAnswerModal.tsx:129-132 | the recording becomes the answer's audio blob |
| SimpleAnswer.AnswerForm.StopAudioRecording | src/components/questions/SimpleAnswerModal.tsx:179-188 | only a running recorder stops, and the timer is cleared with it |
| SimpleAnswer.AnswerForm.ClearAudioRecording | src/components/questions/SimpleAnswerModal.tsx:190-193 | the blob is dropped and the duration reset |
| SimpleAnswer.AnswerForm.HandleSubmit | src/components/questions/SimpleAnswerModal.tsx:201-246 | with blank text and no recording, the error and no request; otherwise loading is set, the error cleared, and either the upload starts (with a recording) or the `BuildPayload` answer request goes out |
| SimpleAnswer.AnswerForm.OnUploadReply | src/components/questions/SimpleAnswerModal.tsx:225-246 | a failed upload aborts with its message and ends loading; a successful one sends the `BuildPayload` request with the returned URL and the text as it was at submission |
| SimpleAnswer.AnswerForm.OnAnswerReply | src/components/questions/SimpleAnswerModal.tsx:248-262 | an accepted answer empties the form and closes it with true; a refused or failed one shows its message and keeps the form; loading ends false |
| SimpleAnswer.RecordingOnlySubmission | src/components/questions/SimpleAnswerModal.tsx:201-262 | a recording with no text is uploaded first, the answer carries only the returned URL, and an accepted answer closes the form with true |
| SimpleAnswer.AnswerForm.HandleClose | src/components/questions/SimpleAnswerModal.tsx:265-286 | the form is emptied, running dictation and recording are stopped, the timer cleared, and the modal closes with false |
| SignIn.Validate | src/app/auth/signin/page.tsx:19-27 | it proceeds exactly when both fields are non-empty and the e-mail ends with the company domain; the empty-field error comes before the domain error |
| SignIn.DomainIsCaseSensitive | src/app/auth/signin/page.tsx:24 | an upper-case company domain is rejected |
| SignIn.EmptyLocalPartPasses | src/app/auth/signin/page.tsx:24 | the bare domain with nothing before the '@' passes the script's own domain check; the browser's `type="email"` and `required` validation of the input (page.tsx:78,82) is not modelled and would stop it before `handleSubmit` runs |
| SignIn.OutcomeToast | src/app/auth/signin/page.tsx:38-46 | success exactly when the result carries no error, including no result at all; otherwise the invalid-credentials or the generic failure message |
| SignIn.SignInForm.constructor | src/app/auth/signin/page.tsx:11-13 | empty fields, not loading |
| SignIn.SignInForm.HandleSubmit | src/app/auth/signin/page.tsx:16-36 | `signIn` is called exactly when the checks pass, with the credentials and `redirect: false`, and loading is set; otherwise the check's error toast and no call |
| SignIn.SignInForm.OnSignInResult | src/app/auth/signin/page.tsx:38-48 | the outcome's toast; navigation to "/" exactly on a successful call; loading ends false |

## Left out

- Prisma, `auth()`, `NextResponse` and JSON parsing are not modelled as such. The store is the `Db.Store` tables, the session is an `Option`, and responses are `Http.Response` values.
- The users table and the `include` relations (`user`, `group`) are not modelled: answers carry only their author's id, and no user row is checked.
- The race between the likes route's lookup and its insert or delete is not modelled, because it is concurrency.
- Store failures other than a foreign key that does not resolve or a like type outside the enum are not modelled. Those two become the 500 responses.
- Media upload (`src/app/api/upload/audio/route.ts`, the storage service) is not modelled. Its reply is the `UploadReply` parameter of `OnUploadReply`.
- The browser APIs of the answer form are parameters or flags: speech recognition, the media recorder, timers and blobs. The recognition set-up, `convertAudioToText` (which only logs) and the KB size display are not modelled.
- SimpleAnswer.AnswerForm.OnRecognitionError: the recording flag the handler reads is the one captured when the modal opened, and the model takes it as the parameter `wasRecording`.
- The submit buttons are disabled while loading (`src/components/questions/SimpleAnswerModal.tsx:436`, `src/app/auth/signin/page.tsx:99`). `SimpleAnswer.AnswerForm.HandleSubmit` and `SignIn.SignInForm.HandleSubmit` take this as a precondition (no submission pending) rather than modelling the button.
- QuestionDetail.DetailState.HandleAnswerLike and UseLike.LikeState.CheckLikeStatus apply their reply in the same step as their request. No other handler runs between the two, so the model does not capture replies that arrive after a later change of state.
- `highlightSearchMatch` and the presentation components are not modelled, because they are display only.
- The `GET /api/questions/[id]` handler is not part of this model. Neither are update and delete handlers, ownership checks, an "unanswered" filter, and search over author names or answers. The question list searches question text only, and the model follows that code.
- Case-insensitive matching folds ASCII letters only. Prisma's `contains` wildcards are not modelled.
- Rows with equal `createdAt` are listed in insertion order.
- JSON fields of a non-string type are not modelled.
- QuestionsRoute.Post: the new question's like count is stated as the ledger's count, not proved zero, because likes may reference ids that no content row has.
