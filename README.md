# Interview preparation app: a verified model of its core

This project is a Dafny model of the logic at the heart of an interview-preparation
web application. The application has a Node/Express backend and a React frontend.
A user describes a job role, an experience level and some topics. The backend asks a
generative-AI service for interview questions with answers. The user saves them as a
*session*, then pins questions, writes notes on them, and asks for explanations of
concepts. The model covers:

- **AI controller** (`ai_controller.dfy`, `prompts.dfy`): the two prompt templates.
  Reading the generated text out of the service's response envelope. Stripping
  markdown code fences from it. The two handlers with their 400/200/500 outcomes.
- **Session and question controllers** (`store.dfy`, `session_controller.dfy`,
  `question_controller.dfy`): an in-memory document store (class `Store`). It holds
  a map of sessions and a map of questions and keeps an invariant. Over it run the
  handlers that create, list, read and delete sessions, and that append, pin and
  annotate questions.
- **Client authentication** (`auth_context.dfy`): the reducer. The provider (class
  `AuthProvider`) that keeps the token and user in browser storage. The start-up
  decision to restore a stored sign-in.
- **Forms and the creation wizard** (`validation_schema.dfy`,
  `create_session_page.dfy`): the shared form schemas as predicates. The wizard page's
  own, different schemas. The two-step wizard (class `Wizard`).
- **Session card** (`session_card.dfy`): the role colour, topic splitting, the
  three-chip limit with its "+N" overflow, and the label fallbacks.
- **Shared vocabulary** (`js_values.dfy`, `text.dfy`, `wrappers.dfy`):
  - JavaScript values, truthiness, `||`, optional chaining, and `String(x)` for the
    values the model uses.
  - JavaScript white space, `trim`, `split` on one character and `join`.
  - Lower-casing.

JavaScript values are a datatype (`undefined`, `null`, booleans, integer numbers,
strings, arrays, objects). That makes truthiness, `||` fallbacks, optional chaining and
template-literal conversion explicit.

Several collaborators become parameters of the model:
- the generative-AI service is `oracle`;
- `JSON.parse` is `parseJson`, where None means it throws;
- decoding a JWT's `exp` claim is `decodeExp`;
- the clock is `now`;
- `JSON.stringify` is `stringify`;
- the e-mail check is `isEmail`.

The store issues ids and creation times from one logical clock, so a later document
has both a larger id and a later `createdAt`. Its invariant `Store.Valid` says:
- every id was issued before the clock;
- every document's `createdAt` is its id;
- a session's question list names only questions of that session, or deleted ones;
- no question outlives its session.

Every store-changing handler keeps this invariant.

The fence stripper `cleanJsonString` is sometimes described as idempotent. The code is
not, and the model follows the code: `AiController.CleanNotIdempotent` shows
"``````" cleaning to "```" and then to "".

## Model

| member | source | states |
|---|---|---|
| AiController.TextAtPath | backend/controllers/aiController.js:8 | the value `response?.candidates?.[0]?.content?.parts?.[0]?.text` reads, undefined wherever the path breaks off |
| AiController.ExtractTextFromResponse | backend/controllers/aiController.js:6-12 | the result is truthy exactly when the value at the path is, is then that value, and is "" otherwise |
| AiController.ExtractFromEnvelope | backend/controllers/aiController.js:6-12 | for any answer of the service, whatever other properties its objects carry and whatever further candidates and parts follow, extraction gives the first part's text back when it is truthy and "" otherwise |
| AiController.ExtractFromMalformed | backend/controllers/aiController.js:6-12 | a response without `candidates`, or whose path leads to a falsy value, yields "" rather than an error |
| AiController.StripLeadingFence | backend/controllers/aiController.js:16 | "```json" in any ASCII letter case at index 0 goes, with the white space after it; see `StripOpeningFence` |
| AiController.StripTrailingFence | backend/controllers/aiController.js:17 | a "```" at the very end goes, nothing else; see `TrailingFenceBeforeSpaceKept` |
| AiController.CleanJsonString | backend/controllers/aiController.js:14-19 | the cleaned text has no leading or trailing white space and is never longer than its input |
| AiController.CleanWithoutFences | backend/controllers/aiController.js:14-19 | on text with neither fence, cleaning is plain `trim` |
| AiController.StripOpeningFence | backend/controllers/aiController.js:16 | "```" followed by "json" in any ASCII letter case at index 0 is removed together with all white space after it |
| AiController.StripOpeningFenceOfBlock | backend/controllers/aiController.js:16 | removing the opening fence of a fenced block leaves the body without its leading white space, plus the closing fence |
| AiController.CleanFenced | backend/controllers/aiController.js:14-19 | a block of "```json" (any case), white space, a body and "```" cleans to the trimmed body |
| AiController.CleanFencedTrimmed | backend/controllers/aiController.js:14-19 | a fenced block whose body is a trimmed text plus white space cleans to exactly that text |
| AiController.CleanExample | backend/controllers/aiController.js:14-19 | "```json\n[{\"a\":1}]\n```" cleans to `[{"a":1}]` |
| AiController.TrailingFenceBeforeSpaceKept | backend/controllers/aiController.js:17 | in a text without an opening fence, a closing fence followed by white space is not removed (`$` without the `m` flag), so the cleaned text still ends with "```" |
| AiController.FencedBlockBeforeSpaceKept | backend/controllers/aiController.js:14-19 | the same holds for the usual answer, a "```json" block followed by a line break: the opening fence goes, and the cleaned text still ends with "```" |
| AiController.CleanNotIdempotent | backend/controllers/aiController.js:14-19 | cleaning twice differs from cleaning once: "``````" gives "```" and then "" |
| AiController.HasRequiredFields | backend/controllers/aiController.js:25-27 | all four fields are truthy: 0 and "" are rejected, an empty array is not |
| AiController.TopicsString | backend/controllers/aiController.js:29-31 | an array of topics is joined with ", ", anything else is passed on as it is; see `TopicsLine` and `TopicsStringLine` |
| AiController.GenerateInterviewQuestions | backend/controllers/aiController.js:21-57 | 400 exactly when one of the four fields is falsy; otherwise 200 exactly when the extracted text is a string whose cleaned form parses, carrying what `parseJson` made of it, and 500 in every other case |
| AiController.GenerateFromEnvelope | backend/controllers/aiController.js:29-48 | a valid request whose answer carries a non-empty text that parses gives those parsed questions, whatever else the answer carries |
| AiController.GenerateFromEmptyText | backend/controllers/aiController.js:40-56 | an answer without text yields "", which does not parse, so the reply is 500 |
| AiController.TopicsInPrompt | backend/controllers/aiController.js:29-33 | an array of topic strings reaches the prompt's Focus Topics line joined with ", ", and every topic occurs in the prompt |
| AiController.TopicsLine | backend/controllers/aiController.js:29-33 | the ", "-joined topic array stands on the prompt's Focus Topics line |
| AiController.TopicsStringLine | backend/controllers/aiController.js:29-33 | whatever string the topics become stands on the Focus Topics line |
| AiController.GenerateConceptExplanation | backend/controllers/aiController.js:59-89 | 400 exactly when `question` is falsy; 500 exactly when the extracted text is not a string (its `replace` throws); otherwise 200 with the cleaned extracted text, which is trimmed |
| AiController.ExplanationOfEmptyText | backend/controllers/aiController.js:74-80 | an answer without text is a 200 with an empty explanation |
| AiController.ExplanationFromEnvelope | backend/controllers/aiController.js:74-80 | the explanation is the cleaned text of the answer, not parsed, whatever else the answer carries |
| JsValues.ArrayJoinOfStrings | backend/controllers/aiController.js:29-31 | `Array.prototype.join` on an array of strings is joining the strings |
| Prompts.QuestionAnswerPrompt | backend/utils/prompts.js:10-38 | the template's lines joined with line breaks; its shape is stated by `QuestionAnswerLines`, `QuestionPromptFrame`, `QuestionPromptCount`, `QuestionPromptDetails` and `InnerLineOfQuestionPrompt` |
| Prompts.QuestionAnswerLines | backend/utils/prompts.js:10-38 | the question prompt has 27 lines: preamble first, closing instruction last, the count on line 2 and the three details on lines 5 to 7 |
| Prompts.QuestionPromptFrame | backend/utils/prompts.js:10-11 | the question prompt begins with the interviewer preamble and its own line, and ends with the closing instruction |
| Prompts.QuestionPromptCount | backend/utils/prompts.js:13 | "Generate exactly " and the count stand on a line of their own |
| Prompts.QuestionPromptDetails | backend/utils/prompts.js:15-18 | "- Role: ", "- Experience Level: " and "- Focus Topics: " with their arguments each stand on a line of their own |
| Prompts.InnerLineOfQuestionPrompt | backend/utils/prompts.js:10-38 | each inner line of the template stands on its own line of the prompt |
| Prompts.ConceptExplainPrompt | backend/utils/prompts.js:47-61 | the explanation template's lines joined with line breaks; its shape is stated by `ConceptExplainLines` and `ExplainPromptShape` |
| Prompts.ConceptExplainLines | backend/utils/prompts.js:47-61 | the explanation prompt has 13 lines |
| Prompts.ExplainPromptShape | backend/utils/prompts.js:47-61 | the explanation prompt begins with the tutor preamble, ends with "Begin your explanation now:", and carries the quoted question on a line of its own |
| DocumentStore.NewQuestion | backend/controllers/sessionController.js:20-25 | a new question points at its session, carries the given texts, is not pinned and has an empty note |
| DocumentStore.Store.CreateSessionDoc | backend/controllers/sessionController.js:10-16 | a fresh id for a session with the given fields and an empty list; nothing else changes |
| DocumentStore.Store.Populate | backend/controllers/sessionController.js:48 | every result is a listed id that exists, with its document; when every listed id exists, the result is all of them in list order |
| DocumentStore.Store.PopulateAppend | backend/controllers/sessionController.js:48 | populating a concatenation is populating each part, one after the other, so list order is kept |
| DocumentStore.Store.PopulateOne | backend/controllers/sessionController.js:48 | a single listed id gives its question when it exists and nothing when it was deleted |
| DocumentStore.Store.PopulateKeepsExisting | backend/controllers/sessionController.js:48 | every listed id that exists comes back, with its document |
| DocumentStore.Store.CreateQuestionDocs | backend/controllers/sessionController.js:18-30 | one new question per element, in order, pointing at the session and carrying the element's question and answer, under the next ids of the clock; earlier questions and sessions stay as they were |
| DocumentStore.ListedAdded | backend/controllers/sessionController.js:18-33 | a list of the consecutive ids under which questions were added names exactly the new questions, in order, each made from its element |
| DocumentStore.Store.SetQuestionList | backend/controllers/sessionController.js:32-33 | only the session's question list changes |
| DocumentStore.Store.DeleteQuestionsOf | backend/controllers/sessionController.js:99 | exactly the questions of the session are removed |
| DocumentStore.Store.DeleteSessionDoc | backend/controllers/sessionController.js:102 | only that session is removed, and only once none of its questions remain |
| DocumentStore.Store.SaveQuestion | backend/controllers/questionController.js:48-49 | only that question changes; its session and creation time stay |
| SessionController.CreateSession | backend/controllers/sessionController.js:5-41 | a new session owned by the caller, nothing else in the session collection changing; the question collection gains exactly one question per started element, in order, under the next ids, and nothing else; 201 exactly when every element is present, the list then being those ids; otherwise 500 with an empty list |
| SessionController.Started | backend/controllers/sessionController.js:18-25 | no question is started when `questions` is not an array (`map` throws first); otherwise every element but undefined and null |
| SessionController.StartQuestions | backend/controllers/sessionController.js:18-30 | one new question per non-null element, in order, under the next ids, and nothing else changes |
| SessionController.NonNullish | backend/controllers/sessionController.js:18-30 | no undefined or null element remains, and nothing is dropped when there is none |
| SessionController.NonNullishAppend | backend/controllers/sessionController.js:18-30 | filtering a concatenation is filtering each part, one after the other, so order is kept |
| SessionController.NonNullishMembers | backend/controllers/sessionController.js:18-30 | the filter keeps exactly the elements other than undefined and null |
| SessionController.GetMySessions | backend/controllers/sessionController.js:44-56 | exactly the caller's sessions, each with its questions populated, newest first |
| SessionController.FindNewestFirst | backend/controllers/sessionController.js:46-47 | exactly the ids of the caller's sessions, in strictly descending `createdAt` |
| SessionController.Insert | backend/controllers/sessionController.js:61-64 | inserting adds exactly the one question |
| SessionController.Arrange | backend/controllers/sessionController.js:61-64 | the arranged questions are a permutation of the given ones |
| SessionController.InsertKeepsOrder | backend/controllers/sessionController.js:61-64 | inserting into a list in display order keeps it in display order |
| SessionController.ArrangeInDisplayOrder | backend/controllers/sessionController.js:61-64 | the arranged questions are in display order |
| SessionController.DisplayOrderMeans | backend/controllers/sessionController.js:63 | in display order, every pinned question precedes every unpinned one, and each group is in ascending `createdAt` |
| SessionController.GetSessionById | backend/controllers/sessionController.js:58-84 | None exactly for an unknown id (404), with no ownership check; otherwise the session with its populated questions reordered pinned first and oldest first |
| SessionController.DeleteSession | backend/controllers/sessionController.js:86-108 | 404 exactly for an unknown id and 401 exactly for someone else's session, both leaving the store unchanged; otherwise the session and exactly its questions are gone and everything else is untouched |
| QuestionController.AddQuestionsToSession | backend/controllers/questionController.js:5-34 | 400 for a missing id or a non-array, 404 for an unknown session, 500 with nothing written for a null element; otherwise one fresh question per element, appended after the session's existing list |
| QuestionController.TogglePinQuestion | backend/controllers/questionController.js:37-56 | 404 exactly for an unknown id; otherwise only that question's `isPinned` flips |
| QuestionController.TogglePinTwice | backend/controllers/questionController.js:37-56 | toggling a pin twice restores the whole store |
| QuestionController.StoredNote | backend/controllers/questionController.js:71 | a truthy note is stored as is, and anything falsy as "" |
| QuestionController.UpdateQuestionNote | backend/controllers/questionController.js:59-79 | 404 exactly for an unknown id; otherwise only that question's note changes, to the stored note |
| AuthContext.AuthReducer | frontend/interview-app/src/context/AuthContext.jsx:12-31 | LOGIN signs in with the payload's user and token, LOGOUT gives the initial state, any other action changes nothing |
| AuthContext.ReduceAll | frontend/interview-app/src/context/AuthContext.jsx:34 | the state after dispatching the actions in order; see `LastAuthActionDecides` |
| AuthContext.LastAuthAction | frontend/interview-app/src/context/AuthContext.jsx:12-31 | None exactly when every action is of another type; otherwise a LOGIN or LOGOUT of the list after which only other types follow |
| AuthContext.LastAuthActionDecides | frontend/interview-app/src/context/AuthContext.jsx:12-31 | after any sequence of actions, the state is decided by the last LOGIN or LOGOUT alone |
| AuthContext.SignedOutHoldsNothing | frontend/interview-app/src/context/AuthContext.jsx:4-8 | from the initial state, a signed-out state holds no user and no token |
| AuthContext.RestoreDecision | frontend/interview-app/src/context/AuthContext.jsx:36-53 | a stored user that is not JSON crashes; with a non-empty token and a truthy user stored, the sign-in is restored exactly when `exp` decodes and `exp * 1000 > now`, and signs out otherwise; without them nothing happens |
| AuthContext.RestoreOnlyUnexpired | frontend/interview-app/src/context/AuthContext.jsx:40-47 | with a token and a user stored, the sign-in is restored exactly when `exp * 1000 > now` |
| AuthContext.AuthProvider.constructor | frontend/interview-app/src/context/AuthContext.jsx:33-34 | the provider starts signed out over whatever storage holds |
| AuthContext.AuthProvider.Login | frontend/interview-app/src/context/AuthContext.jsx:55-61 | the token and the user without its token are stored, and the state is signed in with that user and token |
| AuthContext.AuthProvider.Logout | frontend/interview-app/src/context/AuthContext.jsx:63-67 | both keys are removed and the state is the initial one |
| AuthContext.AuthProvider.RestoreSession | frontend/interview-app/src/context/AuthContext.jsx:36-53 | the start-up effect carries out the restore decision on what storage holds and keeps storage in step with the state |
| ValidationSchema.LoginValid | frontend/interview-app/src/utils/validationSchema.js:6-9 | a valid e-mail and a password of at least one character |
| ValidationSchema.RegisterValid | frontend/interview-app/src/utils/validationSchema.js:14-20 | a name of at least 2 characters, a valid e-mail and a password of at least 6; the profile image is not checked |
| ValidationSchema.Step1Valid | frontend/interview-app/src/utils/validationSchema.js:26-31 | a role of at least 3 characters, an experience, at least one topic, and 3 to 15 questions; see `PageStep1Stricter` |
| ValidationSchema.Step2Valid | frontend/interview-app/src/utils/validationSchema.js:37-39 | no description, or one of at most 300 characters; see `PageStep2Laxer` |
| ValidationSchema.RegisterThenLogin | frontend/interview-app/src/utils/validationSchema.js:6-20 | an e-mail and password that pass registration also pass sign-in |
| CreateSessionPage.PageStep1Valid | frontend/interview-app/src/pages/CreateSessionPage.jsx:112-118 | the page's own step-1 schema; `PageStep1Stricter` relates it to the shared one |
| CreateSessionPage.PageStep2Valid | frontend/interview-app/src/pages/CreateSessionPage.jsx:120-122 | the page's own step-2 schema; `PageStep2Laxer` relates it to the shared one |
| CreateSessionPage.PageStep1Stricter | frontend/interview-app/src/pages/CreateSessionPage.jsx:112-118 | the page's step-1 schema accepts only what the shared one accepts, and rejects a form with an empty topic that the shared one accepts |
| CreateSessionPage.PageStep2Laxer | frontend/interview-app/src/pages/CreateSessionPage.jsx:120-122 | the page's step-2 schema accepts everything the shared one does, including a 301-character description the shared one rejects |
| CreateSessionPage.DefaultsAndSlider | frontend/interview-app/src/pages/CreateSessionPage.jsx:138-152 | the slider offers exactly the counts 3 to 15, the default count 5 is one of them, the empty step-1 form is rejected and the default step-2 form accepted |
| CreateSessionPage.Step1Data | frontend/interview-app/src/pages/CreateSessionPage.jsx:174-177 | the step-1 data carries exactly the four form fields |
| CreateSessionPage.Step2Data | frontend/interview-app/src/pages/CreateSessionPage.jsx:179-182 | the step-2 data carries a description exactly when the form has one |
| CreateSessionPage.Wizard.constructor | frontend/interview-app/src/pages/CreateSessionPage.jsx:128-129 | the wizard starts on step 0 with no data |
| CreateSessionPage.Wizard.SubmitStep1 | frontend/interview-app/src/pages/CreateSessionPage.jsx:174-177 | an invalid form changes nothing; a valid one replaces the data wholesale, dropping any questions, and sends it |
| CreateSessionPage.Wizard.OnGenerateSuccess | frontend/interview-app/src/pages/CreateSessionPage.jsx:157-161 | the generated questions join the data, the other fields stay, and step 1 shows |
| CreateSessionPage.Wizard.OnGenerateError | frontend/interview-app/src/pages/CreateSessionPage.jsx:162 | nothing changes |
| CreateSessionPage.Wizard.SubmitStep2 | frontend/interview-app/src/pages/CreateSessionPage.jsx:179-182 | the sent data is the gathered data with the step-2 fields laid over it, step-2 keys winning |
| CreateSessionPage.Wizard.HandleBack | frontend/interview-app/src/pages/CreateSessionPage.jsx:184-186 | the step goes back by one and the data is untouched |
| SessionCard.GetRoleColor | frontend/interview-app/src/components/session/SessionCard.jsx:16-31 | each of the five roles, in any letter case, gets its colour, and anything else, a missing role included, gets yellow |
| SessionCard.RoleColorIgnoresCase | frontend/interview-app/src/components/session/SessionCard.jsx:17 | a role and its lower-cased form get the same colour |
| SessionCard.LowerIdempotent | frontend/interview-app/src/components/session/SessionCard.jsx:17 | lower-casing twice is lower-casing once |
| SessionCard.Topics | frontend/interview-app/src/components/session/SessionCard.jsx:42 | a falsy value gives no topics and a non-string value fails; a non-empty string gives one trimmed, comma-free topic more than it has commas, empty pieces kept |
| SessionCard.TopicsRoundTrip | frontend/interview-app/src/components/session/SessionCard.jsx:42 | topics written out as "a, b, c" split back into the same list, when none has a comma or surrounding white space |
| SessionCard.VisibleChips | frontend/interview-app/src/components/session/SessionCard.jsx:95 | at most three chips, the first topics, and all of them when there are at most three |
| SessionCard.OverflowChip | frontend/interview-app/src/components/session/SessionCard.jsx:103-106 | the "+N" chip appears exactly when there are more than three topics, and its tooltip is the hidden topics joined with ", " |
| SessionCard.HiddenCount | frontend/interview-app/src/components/session/SessionCard.jsx:105 | the number the "+N" chip shows |
| SessionCard.ChipsCoverTopics | frontend/interview-app/src/components/session/SessionCard.jsx:93-106 | the shown chips and N together account for every topic, and the tooltip lists exactly the hidden ones |
| SessionCard.RoleLabel | frontend/interview-app/src/components/session/SessionCard.jsx:67 | a falsy role shows "General", and a non-empty role shows itself |
| SessionCard.Title | frontend/interview-app/src/components/session/SessionCard.jsx:89 | a string role is followed by " Practice Set"; a missing or boolean role, which React renders as nothing, leaves only " Practice Set" |
| SessionCard.ExperienceLabel | frontend/interview-app/src/components/session/SessionCard.jsx:120 | a falsy experience shows "Any" |
| SessionCard.QuestionCountLabel | frontend/interview-app/src/components/session/SessionCard.jsx:127 | a falsy count shows 15, and a positive count shows itself |
| Text.Trim | backend/controllers/aiController.js:18 | `trim` leaves no white space at either end |
| Text.TrimIsMiddle | backend/controllers/aiController.js:18 | `trim` removes only white space, from both ends |
| Text.JoinSplit | frontend/interview-app/src/components/session/SessionCard.jsx:42 | joining the pieces of a `split` with the separator gives the string back |
| Text.SplitJoin | frontend/interview-app/src/components/session/SessionCard.jsx:42 | splitting a join of separator-free parts gives the parts back |
| Text.SplitCount | frontend/interview-app/src/components/session/SessionCard.jsx:42 | a split has one more piece than the string has separators, and no piece holds the separator |

## Left out

- The generative-AI service call is the parameter `oracle`. The model name, the request shape and network failures are not modelled; a failing call is a 500 like any other throw.
- `JSON.parse` is the parameter `parseJson`, and JSON grammar is not modelled. `JSON.stringify` is the parameter `stringify`.
- JWT decoding is the parameter `decodeExp`, and `Date.now()` is the parameter `now`. A throwing decoder and a token without a numeric `exp` both appear as None.
- The e-mail check of the schema library is the parameter `isEmail`.
- Numbers are unbounded integers. NaN, fractions, infinities and the rounding of doubles beyond 2^53 are not modelled. `String(n)` is decimal digits for every integer, which matches JavaScript only below 10^21 in magnitude; larger numbers are written in exponent form there ("1e+21").
- String lengths count characters, not UTF-16 code units, so the schema bounds differ from the source for text outside the Basic Multilingual Plane.
- Lower-casing maps only A to Z and the Kelvin sign. That is enough to decide every comparison with the five ASCII role names, but it is not the full `toLowerCase`.
- Mongoose schemas, schema-level validation and defaults, ObjectId casting and database failures are not modelled. A malformed id that would throw a cast error is not distinguished from a missing one: `sessionId` is an `Option<Id>`.
- Database timestamps are the store's logical clock. Creation times are therefore distinct and follow creation order.
- SessionController.CreateSession: the `Promise.all` fan-out is sequential. When an element is null, the model creates the questions of the other elements, where in the source they may or may not have been created by the time the rejection is handled.
- SessionController.GetMySessions: `createdAt` is strictly descending because creation times are distinct. Ties, which the source leaves to the database, cannot occur in the model.
- The `_id` and `success` fields of the JSON replies, the messages, and the `console.error` logging are not modelled; replies are datatypes that name the outcome.
- The 500 branches of getSessionById, deleteSession, togglePinQuestion, updateQuestionNote and getMySession are not modelled. They are reached by a database failure, and, in all but getMySession, by an `:id` that is not a valid ObjectId, whose cast error `findById` throws (sessionController.js:60 and :88, questionController.js:39 and :62). Here ids are natural numbers and the store cannot fail, so neither case arises.
- AuthContext.AuthProvider.Login: the user data is an object of JavaScript values; a `userData` that is not an object is not modelled.
- SessionCard.Shown and the labels built from it: React's rendering of arrays and objects is not modelled, so those labels require a primitive value.
- SessionCard.Topics: a truthy non-string `topicsToFocus` makes the card throw; the model reports that as None and does not model the error boundary.
- The session card's date (`toLocaleDateString`), navigation, colours of the theme, and hover styles are presentation and are not modelled.
- The wizard's `createSessionMutation` network call, its navigation on success, the toasts, and the disabled state of the Back button during submission are not modelled. `handleStep2Submit` is modelled up to the data it sends.
- ValidationSchema: the profile image of the registration form is accepted whatever it is, so the model does not carry it.
