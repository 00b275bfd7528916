# Feedback Collection Form — a Dafny model

The Feedback Collection Form system has two parts:

- a Spring backend that stores users, forms, questions, options, responses and answers;
- a React frontend for building forms, publishing them under a public URL, collecting responses, and viewing or exporting them.

This project models the core of both halves in Dafny and proves properties of the model.

Backend:

- The persisted state is a value `Store.Db`: one id-keyed map per table, each with its own key generator. The repository queries are functions over it.
- The JPA entities (`Form`, `Question`, `Response`) are classes. Their bidirectional helper methods update the fields in place.
- The services are `FormService` and `ResponseService`, with the CSV exports in `ResponseCsv`. Their public methods are transactional. The methods of `Store.Repository` work on a copy of the state and commit it only on success. Each method is proved equal to a specification function, and the lemmas beside it state the outcomes, the new state and the preserved store invariant `Store.Valid`.
- Other parts modelled:
  - the request validation (`Requests`) and the response views (`Views`);
  - sign-up and password reset (`Auth`) and the profile endpoints (`UserProfile`);
  - the exception handler (`ExceptionHandler`) and the JWT filter (`TokenFilter`).

Frontend:

- The page and component handlers are functions over the component state, or methods of a class where the component keeps mutable state (`FormCreate.FormCreatePage`).
- Modules: `CreateForm`, `FormCreate`, `QuestionReorder`, `PublicForm`, `FormSubmit`, `ViewForm`, `ResponseList`, `RegisterForm`. `Client` holds the question and option shapes they share.
- Whitespace (`trim()`, `\s`, `split("\\s+")`) is a parameter `ws`. The clock, UUIDs, random draws, the password encoder and date rendering are parameters too.

## Model

| member | source | states |
|---|---|---|
| Store.TypeNameInjective | frontend/src/services/formService.ts:4-12 | distinct question kinds have distinct type names, so a stored name determines the kind |
| Store.FindByPublicUrl | src/main/java/com/FeedBackCollectionForm/assignment/repository/FormRepository.java:15 | the lookup finds a stored form carrying that url, and finds nothing exactly when no form carries it |
| Store.FindByUsername | src/main/java/com/FeedBackCollectionForm/assignment/controller/AuthController.java:374-375 | the lookup finds a stored user with that username, and finds nothing exactly when there is none |
| Store.SortNewestFirst | src/main/java/com/FeedBackCollectionForm/assignment/repository/ResponseRepository.java:13 | the ordering is a permutation of the ids it is given |
| Store.SortNewestFirstSorted | src/main/java/com/FeedBackCollectionForm/assignment/repository/ResponseRepository.java:13 | ordering by submission time puts the ids newest first |
| Store.ResponsesByFormNewestFirst | src/main/java/com/FeedBackCollectionForm/assignment/repository/ResponseRepository.java:13 | the form's responses: exactly the stored responses to that form, newest first |
| Store.ResponsesByEmailNewestFirst | src/main/java/com/FeedBackCollectionForm/assignment/repository/ResponseRepository.java:15 | exactly the stored responses carrying that email, newest first |
| Entities.RemoveFirst | src/main/java/com/FeedBackCollectionForm/assignment/model/Form.java:139-142 | `List.remove` leaves the list alone when the element is absent and otherwise shortens it by one |
| Entities.RemoveFirstMultiset | src/main/java/com/FeedBackCollectionForm/assignment/model/Form.java:139-142 | removal takes exactly one copy of the element out of the multiset of the list |
| Entities.RemoveFirstCutsFirst | src/main/java/com/FeedBackCollectionForm/assignment/model/Form.java:139-142 | the removed element is its first occurrence, and the elements before and after it are kept in order |
| Entities.RemoveFirstAfterAppend | src/main/java/com/FeedBackCollectionForm/assignment/model/Form.java:134-142 | removing an element that was just appended and was absent before restores the list |
| Entities.RemoveFirstGone | src/main/java/com/FeedBackCollectionForm/assignment/model/Form.java:139-142 | an element held at most once is absent afterwards, and nothing new appears |
| Entities.QuestionEntity.constructor | src/main/java/com/FeedBackCollectionForm/assignment/model/Question.java:24-34 | a new question is not required and has no form, options or answers |
| Entities.QuestionEntity.AddOption | src/main/java/com/FeedBackCollectionForm/assignment/model/Question.java:121-124 | the option is appended to the list and its question link points at this question; a fully linked list stays fully linked |
| Entities.QuestionEntity.RemoveOption | src/main/java/com/FeedBackCollectionForm/assignment/model/Question.java:126-129 | the list loses the first occurrence of the option, whose question link is cleared; a fully linked list without duplicates stays fully linked |
| Entities.QuestionEntity.AddAnswer | src/main/java/com/FeedBackCollectionForm/assignment/model/Question.java:131-134 | the answer is appended to the list and its question link points at this question; a fully linked list stays fully linked |
| Entities.QuestionEntity.RemoveAnswer | src/main/java/com/FeedBackCollectionForm/assignment/model/Question.java:136-139 | the list loses the first occurrence of the answer, whose question link is cleared; a fully linked list without duplicates stays fully linked |
| Entities.ResponseEntity.OnCreate | src/main/java/com/FeedBackCollectionForm/assignment/model/Response.java:84-87 | the submission time is set to the clock reading, after which a response attached to a form can be persisted |
| Entities.ResponseEntity.AddAnswer | src/main/java/com/FeedBackCollectionForm/assignment/model/Response.java:90-93 | the answer is appended to the list and its response link points at this response; a fully linked list stays fully linked |
| Entities.ResponseEntity.RemoveAnswer | src/main/java/com/FeedBackCollectionForm/assignment/model/Response.java:95-98 | the list loses the first occurrence of the answer, whose response link is cleared; a fully linked list without duplicates stays fully linked |
| Entities.FormEntity.OnCreate | src/main/java/com/FeedBackCollectionForm/assignment/model/Form.java:122-126 | the creation time and the generated url are set, and the form can be persisted exactly when its title and description pass their column constraints and its non-null author (Form.java:35-37) is set |
| Entities.FormEntity.OnUpdate | src/main/java/com/FeedBackCollectionForm/assignment/model/Form.java:128-131 | the update time is set to the clock reading |
| Entities.FormEntity.AddQuestion | src/main/java/com/FeedBackCollectionForm/assignment/model/Form.java:134-137 | the question is appended to the list and its form link points at this form; a fully linked list stays fully linked |
| Entities.FormEntity.RemoveQuestion | src/main/java/com/FeedBackCollectionForm/assignment/model/Form.java:139-142 | the list loses the first occurrence of the question, whose form link is cleared; a fully linked list without duplicates stays fully linked |
| Entities.FormEntity.AddResponse | src/main/java/com/FeedBackCollectionForm/assignment/model/Form.java:144-147 | the response is appended to the list and its form link points at this form; a fully linked list stays fully linked |
| Entities.FormEntity.RemoveResponse | src/main/java/com/FeedBackCollectionForm/assignment/model/Form.java:149-152 | the list loses the first occurrence of the response, whose form link is cleared; a fully linked list without duplicates stays fully linked |
| Views.OptionFromEntity | src/main/java/com/FeedBackCollectionForm/assignment/payload/response/OptionResponse.java:24-30 | the view carries the stored option's id, text and display order |
| Views.OptionViews | src/main/java/com/FeedBackCollectionForm/assignment/payload/response/QuestionResponse.java:52-56 | one view per option, in order, each built from its own option |
| Views.QuestionFromEntity | src/main/java/com/FeedBackCollectionForm/assignment/payload/response/QuestionResponse.java:44-59 | the view carries the question's columns, and its options' views in order only for a multiple-choice question; other kinds get an empty list |
| Views.QuestionViews | src/main/java/com/FeedBackCollectionForm/assignment/payload/response/FormResponse.java:68-70 | one view per question, in order |
| Views.FormFromEntity | src/main/java/com/FeedBackCollectionForm/assignment/payload/response/FormResponse.java:59-73 | the view carries the form's columns, its author's username, one question view per given question in order, and the response count |
| Views.AnswerFromEntity | src/main/java/com/FeedBackCollectionForm/assignment/payload/response/AnswerResponse.java:34-46 | the view carries the answer's id, its question's id, its text, its rating and its selected option's id |
| Views.AnswerViews | src/main/java/com/FeedBackCollectionForm/assignment/payload/response/ResponseResponse.java:58-62 | one view per answer, in order |
| Views.ResponseFromEntity | src/main/java/com/FeedBackCollectionForm/assignment/payload/response/ResponseResponse.java:48-65 | the view carries the response's columns, its form's id and title, and one answer view per given answer; a null list stays null |
| Views.ResponseViews | src/main/java/com/FeedBackCollectionForm/assignment/payload/response/ResponseResponse.java:48-65 | one view per response, in order, each with its loaded answers |
| Requests.BlankOptionInvalid | src/main/java/com/FeedBackCollectionForm/assignment/payload/request/OptionRequest.java:9-13 | an option request with a missing or blank text fails validation |
| Requests.ValidFormNested | src/main/java/com/FeedBackCollectionForm/assignment/payload/request/FormRequest.java:13-21 | a valid form request has valid questions, and their options are valid too (`@Valid` cascades) |
| Requests.ValidSignupPassword | src/main/java/com/FeedBackCollectionForm/assignment/payload/request/SignupRequest.java:15-36 | a valid sign-up password has 8 to 120 characters, an upper-case letter and a special character |
| Requests.SignupToString | src/main/java/com/FeedBackCollectionForm/assignment/payload/request/SignupRequest.java:40-47 | the text starts with `SignupRequest(username=` and ends with the `[PROTECTED]` marker in place of the password |
| Requests.SignupToStringHidesPassword | src/main/java/com/FeedBackCollectionForm/assignment/payload/request/SignupRequest.java:40-47 | the text does not depend on the password |
| ResponseService.CheckOptionsNone | src/main/java/com/FeedBackCollectionForm/assignment/service/ResponseService.java:80-92 | the selected options pass exactly when every one of them is an option of the question |
| ResponseService.AnswerRowForIff | src/main/java/com/FeedBackCollectionForm/assignment/service/ResponseService.java:47-118 | a draft is accepted exactly when its question id names a question of the form and the draft meets that kind's rule; the row records the draft's value |
| ResponseService.BlankTextWithinLimit | src/main/java/com/FeedBackCollectionForm/assignment/service/ResponseService.java:59-68 | a blank text is never over a positive word limit, because Java's split keeps one empty piece |
| ResponseService.AnswerRowsIff | src/main/java/com/FeedBackCollectionForm/assignment/service/ResponseService.java:47-118 | the rows exist exactly when every draft is accepted, one per draft in order; otherwise the failure is that of the first refused draft |
| ResponseService.AnswerRowsErrPrefix | src/main/java/com/FeedBackCollectionForm/assignment/service/ResponseService.java:47-118 | once a prefix of the drafts fails, the whole submission fails the same way |
| ResponseService.DuplicateDraftsAccepted | src/main/java/com/FeedBackCollectionForm/assignment/service/ResponseService.java:47-118 | answering the same question twice is accepted and stores two rows |
| ResponseService.CollectOptions | src/main/java/com/FeedBackCollectionForm/assignment/service/ResponseService.java:80-92 | the multi-select loop returns the selected ids unchanged, or the first lookup failure |
| ResponseService.BuildAnswer | src/main/java/com/FeedBackCollectionForm/assignment/service/ResponseService.java:48-117 | one loop iteration produces the row, or the failure, of that draft |
| ResponseService.SubmitResponse | src/main/java/com/FeedBackCollectionForm/assignment/service/ResponseService.java:34-121 | the result and the new store are the specification's; a failure leaves the store unchanged |
| ResponseService.SubmitState | src/main/java/com/FeedBackCollectionForm/assignment/service/ResponseService.java:39-118 | a committed submission saves the response row and then the answer rows of the drafts |
| ResponseService.SubmitOutcomes | src/main/java/com/FeedBackCollectionForm/assignment/service/ResponseService.java:36-118 | an unknown url fails as such; otherwise the submission fails exactly when some draft is refused, with the first refusal |
| ResponseService.SubmitView | src/main/java/com/FeedBackCollectionForm/assignment/service/ResponseService.java:120 | the returned view has the new key, the request's name and email, the time and the form, and an empty answer list |
| ResponseService.SubmitAnswers | src/main/java/com/FeedBackCollectionForm/assignment/service/ResponseService.java:47-118 | the new response's answers are one per draft, in draft order, each recording the draft's value for its question |
| ResponseService.SubmitResponses | src/main/java/com/FeedBackCollectionForm/assignment/service/ResponseService.java:39-44 | the response table gains exactly the new row under a fresh key |
| ResponseService.SubmitValid | src/main/java/com/FeedBackCollectionForm/assignment/service/ResponseService.java:34-121 | a committed submission keeps a valid store valid |
| ResponseService.CheckFormOwnerName | src/main/java/com/FeedBackCollectionForm/assignment/service/ResponseService.java:124-135 | passes exactly when the form is stored and its owner has the caller's username |
| ResponseService.CheckResponseOwnerName | src/main/java/com/FeedBackCollectionForm/assignment/service/ResponseService.java:138-147 | passes exactly when the response is stored and its form's owner has the caller's username |
| ResponseService.CheckRespondent | src/main/java/com/FeedBackCollectionForm/assignment/service/ResponseService.java:150-159 | passes exactly when the response is stored and carries the caller's email; a null email is a null dereference |
| ResponseService.ResponseViewsColumns | src/main/java/com/FeedBackCollectionForm/assignment/service/ResponseService.java:131-134 | views of stored responses carry their rows' columns and their loaded answers, in order |
| ResponseService.GetResponsesByFormOutcomes | src/main/java/com/FeedBackCollectionForm/assignment/service/ResponseService.java:124-135 | a missing form and another user's form each fail; otherwise the result is exactly the form's responses, newest first |
| ResponseService.GetResponsesByEmailExact | src/main/java/com/FeedBackCollectionForm/assignment/service/ResponseService.java:162-166 | exactly the responses carrying the email, newest first |
| ResponseService.GetResponseOutcomes | src/main/java/com/FeedBackCollectionForm/assignment/service/ResponseService.java:138-159 | one response goes to its form's owner and to its respondent and to no one else, each refusal with its own failure |
| ResponseCsv.QuestionHeaders | src/main/java/com/FeedBackCollectionForm/assignment/service/ResponseService.java:193-195 | one quoted header per question, in order |
| ResponseCsv.AppendQuestionHeaders | src/main/java/com/FeedBackCollectionForm/assignment/service/ResponseService.java:193-195 | the loop appends exactly `,"text"` per question |
| ResponseCsv.AppendHeader | src/main/java/com/FeedBackCollectionForm/assignment/service/ResponseService.java:188-195 | appends exactly the form's header line |
| ResponseCsv.AppendResponse | src/main/java/com/FeedBackCollectionForm/assignment/service/ResponseService.java:199-239 | appends exactly the response's line |
| ResponseCsv.AppendResponses | src/main/java/com/FeedBackCollectionForm/assignment/service/ResponseService.java:198-240 | appends the lines of the responses, in order |
| ResponseCsv.GenerateCsvForForm | src/main/java/com/FeedBackCollectionForm/assignment/service/ResponseService.java:176-243 | the owner gets the header and every response newest first; the other outcomes are the read's failures |
| ResponseCsv.GenerateCsvForResponse | src/main/java/com/FeedBackCollectionForm/assignment/service/ResponseService.java:253-316 | the owner of the response's form gets its header and that response's line |
| ResponseCsv.GenerateCsvForRespondent | src/main/java/com/FeedBackCollectionForm/assignment/service/ResponseService.java:326-389 | the respondent with the response's email gets its header and that response's line |
| ResponseCsv.CellRenders | src/main/java/com/FeedBackCollectionForm/assignment/service/ResponseService.java:213-236 | each cell is a well-formed CSV field holding the recorded value: quoted text, option texts or date, or a bare decimal rating |
| ResponseCsv.CellForRenders | src/main/java/com/FeedBackCollectionForm/assignment/service/ResponseService.java:205-237 | a response's cell under a question reads back as the value of its first answer for it |
| ResponseCsv.FirstAnswerFound | src/main/java/com/FeedBackCollectionForm/assignment/service/ResponseService.java:209-211 | the answer found for a question is the first one for it |
| ResponseCsv.FirstAnswerMissing | src/main/java/com/FeedBackCollectionForm/assignment/service/ResponseService.java:205-213 | no answer for a question gives an empty cell |
| ResponseCsv.ResponseLineReadsBack | src/main/java/com/FeedBackCollectionForm/assignment/service/ResponseService.java:199-239 | a response line reads back as its key, name, email and time, then one value per question |
| ResponseCsv.HeaderLineReadsBack | src/main/java/com/FeedBackCollectionForm/assignment/service/ResponseService.java:188-195 | the header reads back as the four fixed names, then each question's text in order |
| ResponseCsv.SingleResponseAsInFormCsv | src/main/java/com/FeedBackCollectionForm/assignment/service/ResponseService.java:253-316 | a single-response export is granted exactly when the form export is, and equals the form's header plus that line as the form export writes it |
| ResponseCsv.RespondentGetsOwnersCsv | src/main/java/com/FeedBackCollectionForm/assignment/service/ResponseService.java:326-389 | the respondent's export equals the one the form's owner would get |
| ResponseCsv.CsvFailuresAsReads | src/main/java/com/FeedBackCollectionForm/assignment/service/ResponseService.java:176-187 | the exports are refused exactly when the matching reads are, with the same failure |
| FormService.SaveOptions | src/main/java/com/FeedBackCollectionForm/assignment/service/FormService.java:59-68 | the inner loop saves the option rows in request order, or stops at the first row that breaks a column constraint |
| FormService.SaveQuestion | src/main/java/com/FeedBackCollectionForm/assignment/service/FormService.java:47-69 | one question row and, for multiple choice only, its option rows |
| FormService.SaveQuestions | src/main/java/com/FeedBackCollectionForm/assignment/service/FormService.java:47-69 | the outer loop's rows, with consecutive question keys, or failure exactly when some question is not savable |
| FormService.CreateForm | src/main/java/com/FeedBackCollectionForm/assignment/service/FormService.java:35-72 | the result and the new store are the specification's; a failure leaves the store unchanged |
| FormService.NonChoiceSavable | src/main/java/com/FeedBackCollectionForm/assignment/service/FormService.java:59 | a question that is not multiple choice saves no options and is savable when its columns are valid |
| FormService.BadOptionUnsavable | src/main/java/com/FeedBackCollectionForm/assignment/service/FormService.java:59-68 | a multiple-choice question with an invalid option is not savable |
| FormService.ValidQuestionSavable | src/main/java/com/FeedBackCollectionForm/assignment/service/FormService.java:47-68 | a question that passed request validation never trips a column constraint |
| FormService.CreateFormOutcomes | src/main/java/com/FeedBackCollectionForm/assignment/service/FormService.java:35-72 | an unknown author fails as such; a validated request with a fresh url is always saved; the only failures are the author, a column and a repeated url |
| FormService.CreateFormView | src/main/java/com/FeedBackCollectionForm/assignment/service/FormService.java:71 | the view has the new key, the request's title and description, the url and time, the author's name, no responses and no questions |
| FormService.CreateFormTables | src/main/java/com/FeedBackCollectionForm/assignment/service/FormService.java:35-72 | one more form under a fresh key, owned by the author; users, responses and answers untouched, earlier questions and options kept |
| FormService.CreateFormQuestions | src/main/java/com/FeedBackCollectionForm/assignment/service/FormService.java:47-56 | the new form's questions are the request's, in order, under consecutive keys |
| FormService.CreateFormOptions | src/main/java/com/FeedBackCollectionForm/assignment/service/FormService.java:59-68 | each new question's options are its request's, in order, for multiple choice, and none otherwise |
| FormService.AllOptionRowsOf | src/main/java/com/FeedBackCollectionForm/assignment/service/FormService.java:59-68 | among all option rows saved, those of one question are exactly its own, in order |
| FormService.OnlyMultipleChoiceOptions | src/main/java/com/FeedBackCollectionForm/assignment/service/FormService.java:59 | no option rows are saved for a question that is not multiple choice |
| FormService.CreateFormValid | src/main/java/com/FeedBackCollectionForm/assignment/service/FormService.java:35-72 | a committed creation keeps a valid store valid |
| FormService.GetAllFormsByUserExact | src/main/java/com/FeedBackCollectionForm/assignment/service/FormService.java:75-82 | fails only for an unknown user; otherwise exactly that user's forms, oldest first, each with its response count |
| FormService.CheckOwnerOutcomes | src/main/java/com/FeedBackCollectionForm/assignment/service/FormService.java:85-97 | passes exactly when the form is stored and owned by the caller; otherwise the first failing check is reported |
| FormService.GetFormByIdOutcomes | src/main/java/com/FeedBackCollectionForm/assignment/service/FormService.java:85-97 | a view exactly when the caller owns the form, carrying the caller's name and the response count |
| FormService.GetFormByPublicUrlOutcomes | src/main/java/com/FeedBackCollectionForm/assignment/service/FormService.java:100-105 | fails with "Form not found" exactly when no form has the url; otherwise the view of the one form with it |
| FormService.DeleteForm | src/main/java/com/FeedBackCollectionForm/assignment/service/FormService.java:108-120 | the result and the new store are the specification's; a failed check changes nothing |
| FormService.CascadeDeleteRemoves | src/main/java/com/FeedBackCollectionForm/assignment/model/Form.java:116-120 | nothing left behind leads back to the deleted form |
| FormService.CascadeDeleteKeeps | src/main/java/com/FeedBackCollectionForm/assignment/model/Form.java:116-120 | every row unrelated to the deleted form is kept unchanged |
| FormService.CascadeDeleteValid | src/main/java/com/FeedBackCollectionForm/assignment/model/Form.java:116-120 | the cascading delete keeps a valid store valid |
| FormService.DeleteFormOutcomes | src/main/java/com/FeedBackCollectionForm/assignment/service/FormService.java:108-120 | succeeds exactly when the caller owns the form, and then the form is gone and the store stays valid |
| Auth.GrantedRolesIff | src/main/java/com/FeedBackCollectionForm/assignment/controller/AuthController.java:249-315 | USER is always granted, ADMIN exactly when some requested name is `ROLE_ADMIN` or `admin` once lower-cased and trimmed, and nothing else |
| Auth.GrantedRolesOrderFree | src/main/java/com/FeedBackCollectionForm/assignment/controller/AuthController.java:249-315 | the granted roles do not depend on the order of the names |
| Auth.AdminAt | src/main/java/com/FeedBackCollectionForm/assignment/controller/AuthController.java:256 | a name granting ADMIN anywhere in the list makes the grant USER and ADMIN |
| Auth.NoAdminNamed | src/main/java/com/FeedBackCollectionForm/assignment/controller/AuthController.java:249-315 | without such a name only the user role is granted |
| Auth.FirstAdminName | src/main/java/com/FeedBackCollectionForm/assignment/controller/AuthController.java:252-312 | the loop stops, with its break, at the first name granting ADMIN; no earlier name grants it |
| Auth.SelectRoles | src/main/java/com/FeedBackCollectionForm/assignment/controller/AuthController.java:249-315 | USER always, plus ADMIN exactly when some requested name grants it |
| Auth.RegisterUser | src/main/java/com/FeedBackCollectionForm/assignment/controller/AuthController.java:128-337 | the reply and the new store are the specification's |
| Auth.RegisterOutcomes | src/main/java/com/FeedBackCollectionForm/assignment/controller/AuthController.java:135-160 | a taken username or email is refused with its message and nothing changes; otherwise one user with the encoded password and the granted roles is added |
| Auth.RegisterKeepsValid | src/main/java/com/FeedBackCollectionForm/assignment/controller/AuthController.java:128-337 | registration keeps a valid store valid |
| Auth.RegisterTwiceRefused | src/main/java/com/FeedBackCollectionForm/assignment/controller/AuthController.java:135-140 | the same sign-up repeated is refused |
| Auth.PasswordShape | src/main/java/com/FeedBackCollectionForm/assignment/controller/AuthController.java:441-452 | a generated password has 10 characters from the fixed alphabet |
| Auth.EveryPasswordDrawable | src/main/java/com/FeedBackCollectionForm/assignment/controller/AuthController.java:441-452 | every such password is produced by some draws |
| Auth.GenerateRandomPassword | src/main/java/com/FeedBackCollectionForm/assignment/controller/AuthController.java:441-452 | the loop builds the password the draws pick |
| Auth.ForgotPassword | src/main/java/com/FeedBackCollectionForm/assignment/controller/AuthController.java:368-432 | the reply and the new store are the specification's |
| Auth.ResetUnknownUser | src/main/java/com/FeedBackCollectionForm/assignment/controller/AuthController.java:374-381 | an unknown username is refused and nothing changes |
| Auth.WithPasswordChanges | src/main/java/com/FeedBackCollectionForm/assignment/controller/AuthController.java:390 | setting a password changes only that user's password |
| Auth.ResetChangesOnePassword | src/main/java/com/FeedBackCollectionForm/assignment/controller/AuthController.java:374-391 | a known user's password becomes the encoded new password; nothing else changes |
| Auth.ResetDisclosure | src/main/java/com/FeedBackCollectionForm/assignment/controller/AuthController.java:394-425 | with mail disabled the new password is in the reply and nothing is mailed; with mail enabled it is mailed to the user, and a failed send puts the exception message in the reply |
| UserProfile.GetUserProfile | src/main/java/com/FeedBackCollectionForm/assignment/controller/UserController.java:29-51 | the profile of a stored user carries its fields; an unknown id is an error |
| UserProfile.ProfileHidesCredentials | src/main/java/com/FeedBackCollectionForm/assignment/controller/UserController.java:29-51 | the profile does not depend on the password or the roles |
| UserProfile.PatchFieldwise | src/main/java/com/FeedBackCollectionForm/assignment/controller/UserController.java:68-90 | each field present in the request replaces the user's; each absent one is kept |
| UserProfile.PatchKeepsCredentials | src/main/java/com/FeedBackCollectionForm/assignment/controller/UserController.java:68-90 | username, email, password and roles never change |
| UserProfile.EmptyPatchIdentity | src/main/java/com/FeedBackCollectionForm/assignment/controller/UserController.java:68-90 | an empty request changes nothing |
| UserProfile.PatchIdempotent | src/main/java/com/FeedBackCollectionForm/assignment/controller/UserController.java:68-90 | applying the same request twice equals applying it once |
| UserProfile.PatchesCompose | src/main/java/com/FeedBackCollectionForm/assignment/controller/UserController.java:68-90 | two requests in a row equal their merge, the later field winning |
| UserProfile.UpdateUserProfile | src/main/java/com/FeedBackCollectionForm/assignment/controller/UserController.java:55-95 | the reply and the new store are the specification's |
| UserProfile.UpdateUnknownUser | src/main/java/com/FeedBackCollectionForm/assignment/controller/UserController.java:59-63 | an unknown id is an error and nothing changes |
| UserProfile.UpdateKeepsValid | src/main/java/com/FeedBackCollectionForm/assignment/controller/UserController.java:55-95 | an update keeps a valid store valid |
| UserProfile.ProfileAfterUpdate | src/main/java/com/FeedBackCollectionForm/assignment/controller/UserController.java:55-95 | after an update the profile shows the patched user |
| ExceptionHandler.IsDbIssueIff | src/main/java/com/FeedBackCollectionForm/assignment/exception/GlobalExceptionHandler.java:68-79 | a message is a database issue exactly when it contains one of the listed phrases |
| ExceptionHandler.DbIssueWrapped | src/main/java/com/FeedBackCollectionForm/assignment/exception/GlobalExceptionHandler.java:68-79 | a listed phrase anywhere inside a message makes it a database issue |
| ExceptionHandler.HandleRoleNotFound | src/main/java/com/FeedBackCollectionForm/assignment/exception/GlobalExceptionHandler.java:34-45 | HTTP 500 with the common keys: time, status 500, "Role Not Found" and the exception message, null kept |
| ExceptionHandler.HandleRuntime | src/main/java/com/FeedBackCollectionForm/assignment/exception/GlobalExceptionHandler.java:55-88 | HTTP 200: a database issue gets the fixed text and keeps the original under `originalError`; any other message passes through with no `originalError` |
| ExceptionHandler.HandleAll | src/main/java/com/FeedBackCollectionForm/assignment/exception/GlobalExceptionHandler.java:98-132 | HTTP 200, always with `originalError` holding the message: the fixed database text for a database issue, the fixed "unexpected" text otherwise |
| TokenFilter.PermittedPathIff | src/main/java/com/FeedBackCollectionForm/assignment/security/jwt/AuthTokenFilter.java:46-56 | the token is skipped exactly for the listed path prefixes |
| TokenFilter.ParseJwt | src/main/java/com/FeedBackCollectionForm/assignment/security/jwt/AuthTokenFilter.java:96-104 | a token exactly when the header has text and starts with the prefix; the token is the rest of the header |
| TokenFilter.ParseJwtRoundTrip | src/main/java/com/FeedBackCollectionForm/assignment/security/jwt/AuthTokenFilter.java:96-104 | prefix plus a token parses back to that token |
| TokenFilter.Authenticates | src/main/java/com/FeedBackCollectionForm/assignment/security/jwt/AuthTokenFilter.java:45-86 | an authentication is established only off the permitted paths, for a parsed and valid token, and it is that of the stored user the token names |
| TokenFilter.DoFilterInternal | src/main/java/com/FeedBackCollectionForm/assignment/security/jwt/AuthTokenFilter.java:37-94 | the chain always continues, and the context gains the authentication `Authenticates` computes, or is left unchanged |
| TokenFilter.PermittedPathsSkipToken | src/main/java/com/FeedBackCollectionForm/assignment/security/jwt/AuthTokenFilter.java:46-56 | on a permitted path the header makes no difference |
| TokenFilter.ValidTokenAuthenticates | src/main/java/com/FeedBackCollectionForm/assignment/security/jwt/AuthTokenFilter.java:61-80 | a valid token of a stored user on another path authenticates that user |
| Client.BlankIff | frontend/src/pages/PublicForm.tsx:175 | a text is blank exactly when trimming it leaves nothing |
| Client.FindOption | frontend/src/pages/PublicForm.tsx:346-347 | finds the first option with the id, and finds nothing exactly when none has it |
| Client.OptionTextOfFirst | frontend/src/pages/PublicForm.tsx:346-347 | the text shown is that of the first option carrying the id |
| CreateForm.HandleQuestionTypeChange | frontend/src/pages/CreateForm.tsx:63-156 | only the question at the index changes, and it gets the new type with that type's defaulted settings |
| CreateForm.ChangeTypeIdempotent | frontend/src/pages/CreateForm.tsx:63-156 | choosing the same type twice equals choosing it once |
| CreateForm.ZeroRatingReplaced | frontend/src/pages/CreateForm.tsx:127-140 | rating bounds or default of 0 are replaced by 1, 5 and 3 |
| CreateForm.HandleRequiredToggle | frontend/src/pages/CreateForm.tsx:159-169 | flips the required flag of one question; nothing else changes |
| CreateForm.ToggleTwice | frontend/src/pages/CreateForm.tsx:159-169 | toggling twice restores the list |
| CreateForm.AddOption | frontend/src/pages/CreateForm.tsx:187-196 | a blank option is appended to the question's list when it has one |
| CreateForm.RemoveOption | frontend/src/pages/CreateForm.tsx:199-208 | removes the option only when more than two remain |
| CreateForm.RemoveOptionKeepsTwo | frontend/src/pages/CreateForm.tsx:199-208 | a question never drops below two options by removal |
| CreateForm.AddThenRemoveOption | frontend/src/pages/CreateForm.tsx:187-208 | removing the option just added restores the list |
| CreateForm.AddQuestion | frontend/src/pages/CreateForm.tsx:211-224 | a blank question is appended |
| CreateForm.RemoveQuestion | frontend/src/pages/CreateForm.tsx:227-236 | removes the question only when there is more than one |
| CreateForm.QuestionsNeverEmpty | frontend/src/pages/CreateForm.tsx:211-236 | every editing operation keeps at least one question |
| CreateForm.AddThenRemoveQuestion | frontend/src/pages/CreateForm.tsx:211-236 | removing the question just added restores the list |
| CreateForm.FirstQuestionProblemSpec | frontend/src/pages/CreateForm.tsx:618-679 | the reported problem is the lowest-numbered failing question's, and none exactly when no question fails |
| CreateForm.NoQuestionProblemIff | frontend/src/pages/CreateForm.tsx:608-679 | from a given question on, no problem is found exactly when none of those questions fails |
| CreateForm.FirstFailingQuestion | frontend/src/pages/CreateForm.tsx:608-679 | a problem found is the problem of some failing question, and no question before it fails |
| CreateForm.SubmitProblemIff | frontend/src/pages/CreateForm.tsx:592-702 | the form is submitted exactly when the title is not blank and no question has a problem |
| CreateForm.WordLimitCheck | frontend/src/pages/CreateForm.tsx:618-624 | a word-limited question passes exactly when its limit is between 1 and 1000 |
| CreateForm.OptionsCheck | frontend/src/pages/CreateForm.tsx:626-645 | a choice question passes exactly when it has two or more options, none blank |
| CreateForm.RatingCheck | frontend/src/pages/CreateForm.tsx:647-665 | a rating question passes exactly when its bounds and default are in order and in range |
| CreateForm.RatingProblemNone | frontend/src/pages/CreateForm.tsx:647-665 | the three rating checks pass exactly when all three values are present, the minimum in 0..9, the maximum above it and at most 10, the default between them |
| CreateForm.DefaultsPass | frontend/src/pages/CreateForm.tsx:73-147 | the defaults a type change sets pass the submit checks |
| CreateForm.FreshOptionsFail | frontend/src/pages/CreateForm.tsx:98-125 | a question switched to a choice type still fails, its new options being blank |
| CreateForm.InitialFormRejected | frontend/src/pages/CreateForm.tsx:597-600 | the starting draft cannot be submitted |
| CreateForm.HandleSubmit | frontend/src/pages/CreateForm.tsx:592-702 | the loop reports exactly the specified first problem |
| CreateForm.CheckType | frontend/src/pages/CreateForm.tsx:616-679 | the type checks report the specified problem of the question's type |
| CreateForm.CheckOptions | frontend/src/pages/CreateForm.tsx:626-645 | the option loop reports the specified problem |
| Client.IsBlank | frontend/src/pages/CreateForm.tsx:598 | the `!text.trim()` test is true exactly when the text is nothing but whitespace |
| FormCreate.DraggedOrder | frontend/src/components/FormCreate.jsx:110-127 | after a drag each question sits where the move puts it and is numbered by its new index |
| FormCreate.FormCreatePage.constructor | frontend/src/components/FormCreate.jsx:10-33 | an empty form and composer, nothing under edit, no error |
| FormCreate.FormCreatePage.AddOption | frontend/src/components/FormCreate.jsx:51-62 | a blank option changes nothing; otherwise it is appended and numbered, and the input is cleared |
| FormCreate.FormCreatePage.RemoveOption | frontend/src/components/FormCreate.jsx:64-69 | exactly the option at the index goes; the others keep order and numbers |
| FormCreate.FormCreatePage.AddQuestion | frontend/src/components/FormCreate.jsx:71-100 | a blank text changes nothing; multiple choice without options only sets the error; otherwise the question is appended and the composer reset |
| FormCreate.FormCreatePage.RemoveQuestion | frontend/src/components/FormCreate.jsx:102-107 | exactly the question at the index goes |
| FormCreate.FormCreatePage.HandleDragEnd | frontend/src/components/FormCreate.jsx:110-127 | without a destination nothing changes; otherwise the question moves and all are renumbered |
| FormCreate.FormCreatePage.EditQuestion | frontend/src/components/FormCreate.jsx:130-133 | the question goes into the composer and comes under edit |
| FormCreate.FormCreatePage.UpdateQuestion | frontend/src/components/FormCreate.jsx:136-164 | the composed question replaces exactly the one under edit, unless the guards stop it |
| FormCreate.FormCreatePage.CancelEdit | frontend/src/components/FormCreate.jsx:167-177 | the edit ends and the composer is reset; the form is untouched |
| FormCreate.FormCreatePage.HandleSubmit | frontend/src/components/FormCreate.jsx:179-210 | a blank title or no questions sets the error; otherwise the form is sent |
| FormCreate.GenerateSampleResponse | frontend/src/components/FormCreate.jsx:218-243 | one sample answer per question, in order, keyed by its display order |
| FormCreate.SampleUsesFirstOption | frontend/src/components/FormCreate.jsx:222-226 | in a valid state a multiple-choice sample is its first option's text |
| FormCreate.CheckboxSample | frontend/src/components/FormCreate.jsx:235-239 | a checkbox sample joins at most the first two option texts |
| QuestionReorder.MovedAt | frontend/src/components/DraggableQuestionList.tsx:19-37 | the dragged element sits at the destination, those between shift by one, the rest stay |
| QuestionReorder.MovedPermutation | frontend/src/components/DraggableQuestionList.tsx:19-37 | the drag is a permutation |
| QuestionReorder.MovedKeepsOthers | frontend/src/components/DraggableQuestionList.tsx:19-37 | the other elements keep their relative order |
| QuestionReorder.MovedBack | frontend/src/components/DraggableQuestionList.tsx:19-37 | dragging back restores the list |
| QuestionReorder.MovedInPlace | frontend/src/components/DraggableQuestionList.tsx:19-37 | dropping where picked up changes nothing |
| QuestionReorder.Move | frontend/src/components/DraggableQuestionList.tsx:25-29 | the in-place splices on the array give the moved list |
| QuestionReorder.HandleDragEnd | frontend/src/components/DraggableQuestionList.tsx:19-37 | no callback without a destination or with the same index; otherwise the moved copy |
| PublicForm.InitialAnswers | frontend/src/pages/PublicForm.tsx:38-81 | one empty answer per question, in order, shaped by its type |
| PublicForm.InitialAnswersShape | frontend/src/pages/PublicForm.tsx:38-81 | each initial answer names its question and holds only its type's field, empty |
| PublicForm.HandleAnswerChange | frontend/src/pages/PublicForm.tsx:95-155 | only the question's entries change, each recording the value for its type; the question's shown error is deleted and the other errors kept; the `undefined` that the choice list hands over for "Select an option" (:651) throws a TypeError in `toString()` exactly when the question has an entry |
| PublicForm.HandleAnswerChangeIdempotent | frontend/src/pages/PublicForm.tsx:95-155 | the same change twice equals once, entries and errors alike |
| PublicForm.ErrorsOfNonEmpty | frontend/src/pages/PublicForm.tsx:158-253 | every recorded error message is non-empty, so it counts as shown |
| PublicForm.ChangeHidesShownError | frontend/src/pages/PublicForm.tsx:148-155 | after validation, changing a question's answer removes its error at once and keeps every other error |
| PublicForm.ValidateForm | frontend/src/pages/PublicForm.tsx:158-253 | the errors are exactly the questions whose checks fail, with their messages, and it passes exactly when there are none |
| PublicForm.ErrorsOfKeys | frontend/src/pages/PublicForm.tsx:158-253 | an error is recorded for a question exactly when its check fails |
| PublicForm.ErrorsOfDistinct | frontend/src/pages/PublicForm.tsx:158-253 | each question has at most one error |
| PublicForm.AnsweringClearsError | frontend/src/pages/PublicForm.tsx:95-253 | answering a question with a fitting value clears its error |
| PublicForm.FilledAnswers | frontend/src/pages/PublicForm.tsx:271 | exactly the filled answers are sent, in order |
| PublicForm.RespondentName | frontend/src/pages/PublicForm.tsx:275 | a blank name becomes "Anonymous"; otherwise it is trimmed |
| PublicForm.HandleSubmit | frontend/src/pages/PublicForm.tsx:256-285 | validation failure sends nothing; otherwise the filled answers and the name are sent |
| PublicForm.InitialAnswersUnfilled | frontend/src/pages/PublicForm.tsx:38-81 | no initial answer is sent |
| PublicForm.DownloadCsvReadsBack | frontend/src/pages/PublicForm.tsx:327-382 | the download reads back as a header and one question-answer pair per question |
| PublicForm.CsvShowsChosenOption | frontend/src/pages/PublicForm.tsx:343-349 | a chosen option appears as its text |
| FormSubmit.InitialAnswers | frontend/src/components/FormSubmit.jsx:31-36 | one empty answer per question, in order |
| FormSubmit.HandleTextAnswerChange | frontend/src/components/FormSubmit.jsx:64-73 | only the question's entry changes, to the text |
| FormSubmit.HandleOptionSelect | frontend/src/components/FormSubmit.jsx:75-84 | only the question's entry changes, to the option |
| FormSubmit.HandleRatingChange | frontend/src/components/FormSubmit.jsx:86-95 | only the question's entry changes, to the rating |
| FormSubmit.UnansweredQuestions | frontend/src/components/FormSubmit.jsx:100-113 | exactly the required questions left unanswered, in order |
| FormSubmit.ValidateForm | frontend/src/components/FormSubmit.jsx:97-121 | passes exactly when no required question is unanswered; the message gives their number |
| FormSubmit.OptionalNeverCounted | frontend/src/components/FormSubmit.jsx:100-113 | an optional question is never unanswered |
| FormSubmit.RequiredOtherTypesAlwaysUnanswered | frontend/src/components/FormSubmit.jsx:100-113 | a required question of a kind the filter does not list is always unanswered |
| FormSubmit.RatedQuestionReportedUnanswered | frontend/src/components/FormSubmit.jsx:109 | with the type test as written, a required RATING_SCALE question blocks submission whatever its entry holds |
| FormSubmit.IntendedRatingTest | frontend/src/components/FormSubmit.jsx:109 | with the server's type name, a rated question counts as answered |
| FormSubmit.RatedQuestionAccepted | frontend/src/components/FormSubmit.jsx:86-121 | with the server's type name in the filter and in the render test at :306, rating the question lets the form pass |
| FormSubmit.TextAnswerCounts | frontend/src/components/FormSubmit.jsx:64-113 | a non-blank text answers a text question |
| FormSubmit.OptionAnswerCounts | frontend/src/components/FormSubmit.jsx:75-113 | selecting an option answers a choice question |
| FormSubmit.InitiallyRequiredUnanswered | frontend/src/components/FormSubmit.jsx:31-113 | at the start every required question is unanswered |
| ViewForm.AnswersFor | frontend/src/pages/ViewForm.tsx:86-88 | exactly the answers for the question over all responses, never more than all the answers |
| ViewForm.TallyCounts | frontend/src/pages/ViewForm.tsx:111-199 | counting labels from a start map keeps its keys, adds each label, and gives each key its start value (or 0) plus its number of occurrences |
| ViewForm.TallyAppend | frontend/src/pages/ViewForm.tsx:111-199 | counting two lists in turn equals counting them joined |
| ViewForm.CountSelected | frontend/src/pages/ViewForm.tsx:111-140 | the loop's counts are the tally of the selected options' texts |
| ViewForm.CountMultiSelect | frontend/src/pages/ViewForm.tsx:142-177 | the loop's counts are the tally of the selected texts and typed pieces |
| ViewForm.InitRatingCounts | frontend/src/pages/ViewForm.tsx:184-189 | a zero count for every rating in the range |
| ViewForm.CountRatings | frontend/src/pages/ViewForm.tsx:179-207 | the loop's counts are the tally of the ratings |
| ViewForm.SampleResponses | frontend/src/pages/ViewForm.tsx:100-109 | at most five texts, none blank, each from one of the first five answers |
| ViewForm.QuestionStat | frontend/src/pages/ViewForm.tsx:85-207 | the question's statistic is the specified one |
| ViewForm.GetSummaryStats | frontend/src/pages/ViewForm.tsx:82-207 | none without a form or responses; otherwise one statistic per question, in order |
| ViewForm.SelectedCountsMeaning | frontend/src/pages/ViewForm.tsx:111-140 | each option text's count is the number of answers selecting it |
| ViewForm.RatingCountsMeaning | frontend/src/pages/ViewForm.tsx:179-207 | every rating in range has a count, the number of answers giving it |
| ViewForm.FoundAllTexts | frontend/src/pages/ViewForm.tsx:154-161 | ids that name options give their texts, in order |
| ViewForm.ExportToCsvAsWritten | frontend/src/pages/ViewForm.tsx:42-79 | nothing without a form or responses; otherwise the rows joined by a backslash and n |
| ViewForm.ExportToCsv | frontend/src/pages/ViewForm.tsx:42-79 | nothing without a form or responses; otherwise the rows joined by line feeds |
| ViewForm.ExportAsWrittenIsOneLine | frontend/src/pages/ViewForm.tsx:68 | the export as written holds no line feed, only the two-character separator |
| ViewForm.ExportReadsBack | frontend/src/pages/ViewForm.tsx:42-79 | the export splits back into the header and one row per response |
| ViewForm.RowReadsBack | frontend/src/pages/ViewForm.tsx:49-62 | a row holds the name, the time and one cell per question |
| ResponseList.OptionCount | frontend/src/components/ResponseList.jsx:66-78 | the count never exceeds the number of responses |
| ResponseList.CountOption | frontend/src/components/ResponseList.jsx:66-78 | the reduce loop computes the specified count |
| ResponseList.ChartOf | frontend/src/components/ResponseList.jsx:64-89 | labels are the option texts and each value is its option's count |
| ResponseList.PrepareChartData | frontend/src/components/ResponseList.jsx:54-89 | nothing without multiple-choice questions; otherwise exactly one chart per such question, in form order: every chart is some such question's, every such question has its chart, and the i-th chart is that of the i-th such question |
| ResponseList.ChartDataAfterLoad | frontend/src/components/ResponseList.jsx:36-38 | no charts without responses |
| ResponseList.HitsAtMostOne | frontend/src/components/ResponseList.jsx:66-78 | with distinct ids a response counts for at most one option, and for none exactly when it selects none |
| ResponseList.CountsOverBounded | frontend/src/components/ResponseList.jsx:66-78 | the summed counts never exceed the responses |
| ResponseList.ChartTotalBounded | frontend/src/components/ResponseList.jsx:64-78 | with distinct option ids a chart's values sum to at most the number of responses |
| RegisterForm.RegisterCheck | frontend/src/components/Register.jsx:41-80 | passes exactly when every field is filled, the passwords match and the password is strong |
| RegisterForm.FirstFailureReported | frontend/src/components/Register.jsx:48-78 | the first failing check's message is reported |
| RegisterForm.PhoneIgnored | frontend/src/components/Register.jsx:48-52 | the phone number plays no part in the checks |
| RegisterForm.LowerCaseRejected | frontend/src/components/Register.jsx:67-71 | a password without an upper-case letter is refused with that message |
| RegisterForm.AcceptedPasswordHasSpecial | frontend/src/components/Register.jsx:74-78 | an accepted password has a special character |

## Left out

- HTTP routing, controllers' status-code plumbing other than the exception handler, JSON (de)serialisation and the difference between JSON `null` and a missing property.
- JWT signing and validation, the password encoder, mail sending and the role lowercasing: each is a parameter.
- The clock, `UUID.randomUUID()` and `Random`: the time is a parameter `now`, the url a parameter `uuid`, the random draws a sequence `draws`.
- `LocalDateTime.toString` and `toLocaleString`: parameters `render` and `stamp`.
- JavaScript `new Date(...)` comparisons: a parameter `later`; the DATE branch of the summary statistics is not modelled.
- The chart colours of the response list and the key order of the counting objects.
- Asynchronous service calls, loading flags, toasts and their catch paths.
- CreateForm.AddOption, CreateForm.RemoveOption: the page reuses the previous state's option array; sharing it between states is not modelled.
- FormCreate.FormCreatePage.UpdateQuestion: requires the index under edit to be in range, since JavaScript would write past the end.
- QuestionReorder.HandleDragEnd: requires valid indexes, which the drag-and-drop library guarantees.
- FormCreate.FormCreatePage.HandleDragEnd: requires valid source and destination indexes, for the same reason.
- `handleFormChange`, `handleQuestionChange`, `handleOptionChange`, `handleQuestionsReorder` of CreateForm.tsx, `handleFormChange`, `handleQuestionChange` of FormCreate.jsx and `handleInputChange` of FormSubmit.jsx: plain field setters, not modelled.
- Entities.QuestionEntity.RemoveOption: removes the first element that is the same object. Java's `List.remove` removes the first element that `equals` the argument, and Lombok's `@Data` equality compares fields, recursing through parents and child lists. Two distinct entities with equal fields, such as two unsaved options with the same text, order and question, are not told apart here.
- Entities.QuestionEntity.RemoveAnswer: removal by identity rather than by `@Data` field equality, as for RemoveOption.
- Entities.ResponseEntity.RemoveAnswer: removal by identity rather than by `@Data` field equality, as for RemoveOption.
- Entities.FormEntity.RemoveQuestion: removal by identity rather than by `@Data` field equality, as for RemoveOption.
- Entities.FormEntity.RemoveResponse: removal by identity rather than by `@Data` field equality, as for RemoveOption.
- The entities carry no `id` column and no getters or setters. The users table is not an entity class: a form's author is the key of its user row.
- Auth.RegisterUser: `userRepository.save` and the role-table lookups cannot fail here. The catch blocks that turn a failed save into an "Error: Registration failed…" message (AuthController.java:338-356), and the catches around finding or creating the ADMIN role, are not modelled.
- Auth.GrantedRoles: role names are strings, never null. The loop's skipping of a null name (AuthController.java:256) is not modelled.
- FormService.CreateFormView, ResponseService.SubmitView: the returned views have empty child lists, because the code never fills the saved entities' lists; this is modelled as written.
- ResponseService.CheckRespondent: a response saved without an email makes the Java comparison dereference null, modelled as a failure.
- Whitespace classes of Java and JavaScript: a parameter `ws` rather than the exact Unicode sets.

## Findings

| source | as written | input that shows it | evidently intended | confidence | as-written member | corrected member |
|---|---|---|---|---|---|---|
| frontend/src/components/FormSubmit.jsx:109 | the rating test compares the type with 'RATING', a name the server never sends | any required RATING_SCALE question: it can never count as answered, since the page renders rating buttons only for 'RATING' (:306) and so never rates it | the server's name RATING_SCALE in both the filter and the render test at :306, so a rated question counts as answered; RatedQuestionAccepted assumes both are corrected | not executed | FormSubmit.RatedQuestionReportedUnanswered | FormSubmit.RatedQuestionAccepted |
| frontend/src/pages/ViewForm.tsx:68 | rows are joined with the two characters backslash and n | any form with one response | a line feed between rows | not executed | ViewForm.ExportAsWrittenIsOneLine | ViewForm.ExportReadsBack |
