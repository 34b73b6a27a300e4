# To-do list: accounts, reset links and task ownership

The to-do list application has an Express/Mongoose backend and a plain
JavaScript frontend. This project models its rules as Dafny and proves
properties about them:

- **Accounts** (`authController.js`, `User.js`). A user collection keyed by
  id, with a unique lower-cased e-mail, a bcrypt digest and a nullable
  `resetPasswordJti` marker. The model covers `register`, `login`, `logout`,
  `verifyAuth`, `forgotPassword` and `resetPassword`, the schema's
  validators and setters, and the pre-save hook that hashes a modified
  password.
- **Tasks** (`taskController.js`, `Task.js`). A task collection whose every
  lookup is `{ _id, userId }`. The model covers the schema's validators,
  setters and defaults. It distinguishes the partial `$set` of an update
  (only the present paths are validated) from the full validation on create.
- **Request gate** (`middleware/auth.js`). `authenticateToken` picks the
  session token, then answers 401, answers 403, or passes the request on.
- **Error handler** (`middleware/errorHandler.js`). Rules are tried in
  cascade and the last matching one wins. The status then defaults to 500,
  and any status of 500 or above shows a generic text.
- **Client-side checks** (`RegisterPage.js`, `ResetPasswordPage.js`). These
  are the registration form's field rules, `isFormValid` and the body it
  sends, plus the reset page's ordered guard chain.

Cryptography is idealised:

- `Bcrypt` is a digest that matches exactly its own password.
- `Jwt` is a token codec with a proved round trip. Signing with an empty
  secret fails, and a token verifies only under the key it was signed with
  and only before its expiry.

The clock, the salt, the fresh `jwtid` (drawn from `Math.random()`) and the
outcome of mail delivery are parameters. Stores are classes whose methods are proved equal to pure
specification functions over the collection's value. The lemmas are stated
about those functions.

In these cases the model follows the code, which differs from what a reader
might expect:

- `forgotPassword` for an unknown e-mail answers 202 with "Correo no
  registrado." (`authController.js:160-162`). It is not a generic success
  reply that hides whether the account exists.
- A reset link is not single-use. The marker is not cleared when the
  password changes (`authController.js:224-226`), so the same link works
  again while it is fresh (`AuthController.ResetLinkReusable`).
- A bad or expired reset token lands in the catch and gets 500, not 400
  (`authController.js:229-231`).
- The handler's password check (`authController.js:219`) lacks the schema's
  rule that `.` matches no line terminator. "Abcdefg1\n" passes the check,
  fails `save()` and gets 500 (`AuthController.LineTerminatorPasswordFailsLate`).
- The reset secret falls back to a fixed text when unset
  (`environment.js:23`), so a reset token can always be signed. The session
  secret has no fallback: `login` and `authenticateToken` read
  `process.env.JWT_SECRET` itself (`authController.js:65`, `auth.js:24`),
  not `config.JWT_SECRET`. Without it every correct login gets 500 and every
  token gets 403 (`AuthController.UnsetSessionSecretFailsLogin`,
  `AuthMiddleware.UnsetSessionSecretForbids`).

## Model

| member | source | states |
|---|---|---|
| JsText.Trim | backend/src/models/User.js:24 | the result is no longer than the text, and neither starts nor ends with white space |
| JsText.TrimEmptyIffAllSpace | backend/src/models/User.js:24 | trimming leaves nothing exactly when the text is all white space |
| JsText.TrimKeepsInner | backend/src/models/User.js:24 | what trimming keeps is one contiguous run of the text, with only white space before and after it |
| JsText.TrimmedIsFixed | backend/src/models/Task.js:25 | trimming a trimmed text changes nothing, so a re-saved trimmed title or name is kept as it is |
| JsText.ToLowerKeepsSpace | backend/src/models/User.js:41 | the `lowercase` setter neither adds nor removes white space |
| JsText.TrimStartSkipsSpace | frontend/src/pages/RegisterPage.js:75-76 | `parseInt` skips a prefix made only of white space and reads the rest of the text |
| JsText.DigitPrefixIsPrefix | frontend/src/pages/RegisterPage.js:75-76 | the digits `parseInt` reads are the ones at the head of the text |
| JsText.LeadingNumberOfDigits | frontend/src/pages/RegisterPage.js:75-76 | a run of digits followed by a non-digit is read as its decimal value |
| JsText.ParseIntUnsigned | frontend/src/pages/RegisterPage.js:75-76 | a text starting with a digit is read from its first character, without a sign |
| JsText.ParseIntNegative | frontend/src/pages/RegisterPage.js:75-76 | a minus sign in front of a digit negates the number read after it |
| JsText.ParseIntOfText | frontend/src/pages/RegisterPage.js:75-76 | `parseInt` reads back the decimal text of every integer, whatever non-digit text follows it |
| Bcrypt.Hash | backend/src/models/User.js:81-82 | the digest matches its own password and no other, and records its salt |
| Bcrypt.SaltsGiveDistinctDigests | backend/src/models/User.js:81-82 | two salts give two different digests of one password, and both match it |
| Jwt.DecodeEncode | backend/src/controllers/authController.js:63-67 | decoding an encoded envelope gives it back |
| Jwt.Sign | backend/src/controllers/authController.js:63-67 | signing fails exactly when the secret is empty; a token is non-empty, has no space, and decodes to the claims, `iat`, `exp = iat + lifetime` and the key |
| Jwt.VerifySigned | backend/src/middleware/auth.js:24-30 | a signed token verifies under its key to its own claims exactly while `now < exp`, and is reported expired afterwards |
| Jwt.VerifySamePayload | backend/src/controllers/authController.js:213 | whenever a token verifies, it yields the same payload; only the expiry check depends on the time |
| Jwt.VerifyOtherKey | backend/src/middleware/auth.js:24-30 | a token never verifies under a different secret |
| UserModel.NewUserDoc | backend/src/models/User.js:19-61 | a new document has a `null` reset marker and a modified plain password; a given name is stored trimmed, a given e-mail lower-cased (so without upper-case letters), last name and age as given, and absent paths stay absent |
| UserModel.Failures | backend/src/models/User.js:21-56 | the failing paths are empty exactly when every validator passes; `password` and `email` fail exactly when their own validators do |
| UserModel.PreSave | backend/src/models/User.js:78-87 | an unmodified password leaves the document unchanged; a modified one is replaced by a digest that matches it; the marker and e-mail are kept |
| UserModel.NewDocStored | backend/src/models/User.js:19-87 | a valid new document is saved as a valid record holding the trimmed name, the given last name and age, the lower-cased e-mail, a digest matching its password and a `null` marker |
| UserModel.MarkerSave | backend/src/controllers/authController.js:170-171 | saving a loaded record with only a new marker passes validation, keeps the digest and changes only the marker |
| UserModel.PasswordSave | backend/src/controllers/authController.js:224-226 | saving a loaded record with a new password that passes the pattern stores a digest of it, and every other field stays |
| UserModel.UserDocument.New | backend/src/controllers/authController.js:24 | the document built is the one `NewUserDoc` describes |
| UserModel.UserDocument.Load | backend/src/controllers/authController.js:57 | a loaded document shows the stored record, with the password unmodified |
| UserModel.UserDocument.AssignPassword | backend/src/controllers/authController.js:224 | only the password changes, and it is marked modified |
| UserModel.UserDocument.AssignResetPasswordJti | backend/src/controllers/authController.js:170 | only the marker changes |
| UserModel.UserDocument.PreSaveHook | backend/src/models/User.js:78-87 | the document becomes what `PreSave` gives |
| AuthController.EmailsUnique | backend/src/models/User.js:37-41 | two stored users whose e-mails agree up to case are the same user |
| AuthController.FindByEmail | backend/src/controllers/authController.js:57 | the lookup finds a user exactly when one has the lower-cased e-mail, and finds that user |
| AuthController.Replace | backend/src/controllers/authController.js:224-226 | overwriting a record with a valid one that keeps its e-mail keeps the collection well formed, with the same ids and e-mail index |
| AuthController.RegisterSpec | backend/src/controllers/authController.js:20-36 | an invalid document gets 400 with exactly its failing paths and changes nothing; a valid one gets 409 and changes nothing exactly when its lower-cased e-mail is taken, and 201 exactly when it is free; a success adds exactly one user under a fresh id, with the trimmed name, the given last name and age, the lower-cased e-mail, a digest matching the password and a `null` marker |
| AuthController.RegisterDuplicateIgnoresCase | backend/src/controllers/authController.js:29-33 | a valid registration whose e-mail equals a stored one up to case gets 409 and changes nothing |
| AuthController.RegisterThenLogin | backend/src/controllers/authController.js:24-67 | after a registration, login succeeds with the registered password and with no other |
| AuthController.LoginRejectionsIdentical | backend/src/controllers/authController.js:57-61 | the 401 reply is one and the same, and it is given exactly for an unknown e-mail or a wrong password |
| AuthController.UnsetSessionSecretFailsLogin | backend/src/controllers/authController.js:53-84 | without `JWT_SECRET` no login succeeds: a known e-mail with the right password, or with none, gets 500, and every other attempt gets 401 |
| AuthController.LoginSession | backend/src/controllers/authController.js:63-77 | the cookie `access_token` is HTTP-only and carries the token; its max-age equals the token's lifetime; the token carries exactly the user's id and stored e-mail and verifies exactly during those two hours |
| AuthController.Logout | backend/src/controllers/authController.js:98-114 | `access_token` is cleared with the very options it was set with |
| AuthController.EnvOr | backend/src/config/environment.js:23-26 | a set, non-empty variable is used as given; an unset or empty one takes the fallback, so the result is empty only if the fallback is |
| AuthController.LoadConfig | backend/src/config/environment.js:9-26 | the session secret is `JWT_SECRET` as given, empty exactly when it is unset or empty; the reset secret and front-end address are the variables when set and non-empty, and never empty; production mode holds exactly when `NODE_ENV` is `production` |
| AuthController.ResetToken | backend/src/controllers/authController.js:163-168 | a reset token is signed exactly when the reset secret is non-empty, which `LoadConfig` guarantees |
| AuthController.ForgotSpec | backend/src/controllers/authController.js:155-196 | an unknown e-mail gets 202 and no change or mail; a known one overwrites only that user's marker with the fresh id and mails the reset link (to the fixed address in production); a failed delivery answers 500 but still leaves the marker written; with an empty reset secret nothing is written and the answer is 500 |
| AuthController.PolicyAndPattern | backend/src/controllers/authController.js:219-221 | every password the schema accepts passes the handler's check; the check accepts more exactly for passwords with a line terminator |
| AuthController.ResetSpec | backend/src/controllers/authController.js:210-232 | every outcome but a success leaves the collection unchanged; no user is added or removed and the e-mail index stays; a success needs a good link and a password the schema accepts, and then stores that password's digest in the linked user's record and changes no other record |
| AuthController.ResetUpdatedIff | backend/src/controllers/authController.js:210-232 | a reset succeeds exactly for a token that verifies, names a stored user and carries that user's marker, with a password the schema accepts; then only that user's digest changes |
| AuthController.ForgotThenReset | backend/src/controllers/authController.js:155-232 | the mailed link resets the password while fresh: only the digest changes, the marker stays, and the new password matches; after an hour it gets 500 and nothing changes |
| AuthController.NewerRequestInvalidatesOlder | backend/src/controllers/authController.js:213-217 | after a second request for the same user, the first link gets 400 (500 once expired) and changes nothing |
| AuthController.ResetLinkReusable | backend/src/controllers/authController.js:224-228 | after a successful reset, the same token resets the password again while it verifies |
| AuthController.WeakPasswordChangesNothing | backend/src/controllers/authController.js:219-221 | a password failing the handler's check gets 400 and leaves the collection as it was |
| AuthController.LineTerminatorPasswordFailsLate | backend/src/controllers/authController.js:219-231 | for a good link, every password that passes the handler's check but holds a line terminator gets 500, not 400, and changes nothing |
| AuthController.LineTerminatorPasswordExists | backend/src/controllers/authController.js:219-221 | such passwords exist: "Abcdefg1\n" passes the handler's check and holds a line terminator |
| AuthController.ResetBadToken | backend/src/controllers/authController.js:210-231 | no token, or one that does not verify with the reset secret (bad signature, other key, expired), gets 500 and changes nothing |
| AuthController.ResetMarkerMismatch | backend/src/controllers/authController.js:213-217 | a verified token whose JWT id differs from the user's stored marker, a `null` marker included, gets 400 whatever the password, and changes nothing |
| AuthController.ResetMissingPassword | backend/src/controllers/authController.js:219-231 | a good link without a new password gets 500 and changes nothing |
| AuthController.ResetUnknownUser | backend/src/controllers/authController.js:214-215 | a valid token for an id with no user gets 500 and changes nothing |
| AuthController.UserStore.Register | backend/src/controllers/authController.js:20-36 | the store's new state and the outcome are those of `RegisterSpec`, and the store stays well formed |
| AuthController.UserStore.Login | backend/src/controllers/authController.js:53-85 | the outcome is that of `LoginSpec` on the current store |
| AuthController.UserStore.ForgotPassword | backend/src/controllers/authController.js:155-196 | the new state, the outcome and the mail are those of `ForgotSpec` |
| AuthController.UserStore.ResetPassword | backend/src/controllers/authController.js:210-232 | the new state and the outcome are those of `ResetSpec` |
| AuthMiddleware.SelectToken | backend/src/middleware/auth.js:12-15 | a non-empty cookie wins; with neither cookie nor header there is no token; a token is never empty |
| AuthMiddleware.HeaderSecondWord | backend/src/middleware/auth.js:15 | without a cookie, the second word of a two-word header is the token, whatever the first word is |
| AuthMiddleware.Decide | backend/src/middleware/auth.js:11-34 | 401 exactly when there is no token; 403 exactly when verification with the session secret fails; otherwise it passes on with the verified payload |
| AuthMiddleware.SessionTokenPasses | backend/src/middleware/auth.js:13-32 | a session token, in the cookie or after any scheme word in the header, passes exactly while fresh and gets 403 afterwards |
| AuthMiddleware.UnsetSessionSecretForbids | backend/src/middleware/auth.js:11-34 | without `JWT_SECRET` no request passes: one with a token gets 403, one without gets 401 |
| AuthMiddleware.ResetTokenIsNoSession | backend/src/middleware/auth.js:24-30 | a token signed with a different reset secret gets 403 |
| AuthMiddleware.LoginThenVerify | backend/src/controllers/authController.js:125-138 | for two hours after a login, its cookie passes and `verifyAuth` answers the user's id and stored e-mail |
| AuthMiddleware.Request.AuthenticateToken | backend/src/middleware/auth.js:11-34 | on a pass, `req.user` is the payload and `next` is called exactly once; otherwise the status is 401 or 403 and `next` is not called |
| TaskModel.HourPatternIsTimeOfDay | backend/src/models/Task.js:42-50 | the hour pattern accepts exactly the texts `HH:mm` with hour 0-23 and minute 0-59 |
| TaskModel.HourTextMatches | backend/src/models/Task.js:42-50 | the `HH:mm` text of every time of day matches the hour pattern |
| TaskModel.HourPatternReads | backend/src/models/Task.js:42-50 | a text the hour pattern accepts is the `HH:mm` text of the hour and minute its digits read as |
| TaskModel.CreateFailures | backend/src/models/Task.js:19-65 | a path fails exactly when its validator does, and none fails exactly when the record is valid |
| TaskModel.NewTask | backend/src/controllers/taskController.js:26-29 | a create succeeds exactly when there is an owner, a title that is non-empty and at most 50 long once trimmed, details at most 500 long once trimmed if given, a date not in the past, a well-formed hour and a listed status if given; the task stored has the trimmed title and details (details "" and status "Por hacer" when absent), the given date, hour and status, and the requester as owner; a failure reports exactly the failing paths of the built document; a missing title fails |
| TaskModel.NewTaskFailures | backend/src/models/Task.js:19-65 | a create reports the paths an update with the same body would, plus the title when it is absent and the owner when there is none |
| TaskModel.UpdateFailures | backend/src/controllers/taskController.js:83-87 | a path fails exactly when it is present and its validator fails |
| TaskModel.ApplyUpdate | backend/src/controllers/taskController.js:83-87 | an update fails exactly when a present path is invalid; otherwise only the present paths change, the owner is kept, and a valid task stays valid |
| TaskModel.EmptyUpdateKeeps | backend/src/controllers/taskController.js:83-87 | an update with no paths changes nothing |
| TaskModel.FailuresAgree | backend/src/models/Task.js:19-65 | on a body with every path, an update and a create refuse the same paths |
| TaskModel.FullUpdateIsCreate | backend/src/controllers/taskController.js:72-96 | an update that sets every path gives the same record a create would give, with the same owner |
| TaskController.CreateSpec | backend/src/controllers/taskController.js:24-37 | a task is created exactly when `NewTask` accepts the body for the requester; an invalid body gets exactly `NewTask`'s non-empty failing paths and no change; a created task is stored under a fresh id and owned by the requester |
| TaskController.CreateOutcomeOf | backend/src/controllers/taskController.js:24-37 | the reply and new state of a create are fixed by `NewTask`: its failure changes nothing, its task is stored under the next id |
| TaskController.UpdateSpec | backend/src/controllers/taskController.js:72-96 | a malformed id gets 400; a task the requester does not own gets 404; an owned task is updated exactly when `ApplyUpdate` accepts the body, and otherwise gets exactly its failing paths; only a success changes anything, and then only that task, keeping its owner |
| TaskController.DeleteSpec | backend/src/controllers/taskController.js:107-125 | a malformed id gets 500; a task is removed exactly when the requester owns it, and then only that one |
| TaskController.OwnedByStore | backend/src/controllers/taskController.js:47-51 | storing a task adds it to its owner's list, replacing any task under that id, and removes that id from every other list |
| TaskController.OwnedByRemove | backend/src/controllers/taskController.js:47-51 | removing a task takes it out of every user's list and changes nothing else there |
| TaskController.CreateLeavesOthers | backend/src/controllers/taskController.js:24-37 | a create by one user leaves every other user's list as it was |
| TaskController.UpdateLeavesOthers | backend/src/controllers/taskController.js:72-96 | an update by one user leaves every other user's list as it was |
| TaskController.DeleteLeavesOthers | backend/src/controllers/taskController.js:107-125 | a delete by one user leaves every other user's list as it was |
| TaskController.OthersUnaffected | backend/src/controllers/taskController.js:47-125 | no request by one user changes what another user's `getTasks` returns |
| TaskController.CreatedIsListed | backend/src/controllers/taskController.js:24-51 | the owner's list after a create is the list before it, plus the new task |
| TaskController.DeletedIsUnlisted | backend/src/controllers/taskController.js:107-118 | the owner's list after a delete is the list before it, minus that task |
| TaskController.TaskStore.CreateTask | backend/src/controllers/taskController.js:24-37 | the new state and the outcome are those of `CreateSpec` |
| TaskController.TaskStore.GetTasks | backend/src/controllers/taskController.js:47-60 | the result holds exactly the requester's tasks, unchanged |
| TaskController.TaskStore.UpdateTask | backend/src/controllers/taskController.js:72-96 | the new state and the outcome are those of `UpdateSpec` |
| TaskController.TaskStore.DeleteTask | backend/src/controllers/taskController.js:107-125 | the new state and the outcome are those of `DeleteSpec` |
| ErrorHandler.LastMapped | backend/src/middleware/errorHandler.js:30-70 | the rule chosen is a mapping rule of the cascade, and there is none exactly when no rule maps the error |
| ErrorHandler.LastMappedAt | backend/src/middleware/errorHandler.js:30-70 | a mapping rule with no mapping rule after it is the one chosen |
| ErrorHandler.Project | backend/src/middleware/errorHandler.js:72-78 | the status is the given code, or 500 when it is absent or 0; at 500 or above the client sees the generic text, below it the message or the default text |
| ErrorHandler.CascadeIsLastMapped | backend/src/middleware/errorHandler.js:30-70 | applying the rules one at a time, in source order, ends with the last rule that mapped the error |
| ErrorHandler.NothingThrows | backend/src/middleware/errorHandler.js:36-47 | only the duplicate-key and validation rules can throw |
| ErrorHandler.HandleError | backend/src/middleware/errorHandler.js:14-89 | the step-by-step reassignment of `error` gives the reply `Respond` describes: the last matching rule decides, the error's own fields decide when none matches, and a throwing rule makes the handler throw |
| ErrorHandler.RateLimitOverrides | backend/src/middleware/errorHandler.js:66-70 | status 429 gets 429 and its fixed message, whatever matched before |
| ErrorHandler.VerifyErrorsGet401 | backend/src/middleware/errorHandler.js:49-58 | both errors `jwt.verify` raises get 401, "Token expirado" for expiry and "Token inválido" otherwise, unless a later rule matches |
| ErrorHandler.UnrecognisedKeepsOwnStatus | backend/src/middleware/errorHandler.js:72-78 | an error no rule recognises is answered from its own status code and message |
| ErrorHandler.ServerErrorsAreGeneric | backend/src/middleware/errorHandler.js:76-78 | every reply at 500 or above shows only the generic text |
| ErrorHandler.ValidationJoinsMessages | backend/src/middleware/errorHandler.js:43-47 | a validation error gets 400 with every message joined by ", " |
| ErrorHandler.DuplicateKeyNamesField | backend/src/middleware/errorHandler.js:36-41 | a duplicate key gets 400 with a message naming the first key of `keyValue` |
| ErrorHandler.CastErrorIsNotFound | backend/src/middleware/errorHandler.js:30-34 | a cast error gets 404 |
| ErrorHandler.MissingDetailsThrow | backend/src/middleware/errorHandler.js:37-46 | a duplicate key without `keyValue`, or a validation error without `errors`, makes the handler throw |
| RegisterPage.FormValidIffEveryField | frontend/src/pages/RegisterPage.js:61-114 | `isFormValid` holds exactly when `validateField` holds for every field |
| RegisterPage.Submit | frontend/src/pages/RegisterPage.js:137-154 | a body is sent exactly when the form is valid; it carries the trimmed names, surnames and e-mail (the names non-empty), the password as typed, and the age as `parseInt` reads it |
| RegisterPage.FormPasswordIsStrongEnough | frontend/src/pages/RegisterPage.js:88 | every password the form accepts satisfies the schema's pattern, and so the reset handler's check |
| RegisterPage.SchemaEmailPassesForm | frontend/src/pages/RegisterPage.js:82 | every e-mail the schema accepts, the form accepts |
| RegisterPage.SubmittedPassesAllButEmail | frontend/src/pages/RegisterPage.js:104-154 | a sent body passes the schema's name, last-name, age and password rules; it is valid exactly when its e-mail is |
| RegisterPage.SpaceInsideEmailRefused | frontend/src/pages/RegisterPage.js:82 | a sent e-mail with white space inside it is refused by the schema |
| RegisterPage.FormEmailAllowsInnerSpace | frontend/src/pages/RegisterPage.js:82 | "a b@c.de" passes the form's e-mail rule, so that case happens |
| ResetPasswordPage.OnSubmit | frontend/src/pages/ResetPasswordPage.js:54-96 | the request is sent exactly when both trimmed fields are non-empty and equal and pass the handler's check; each toast appears only when its own check fails and every earlier check passed |
| ResetPasswordPage.Page | frontend/src/pages/ResetPasswordPage.js:43-52 | without a non-empty `token` parameter a submit does nothing; otherwise it runs the handler |
| ResetPasswordPage.SentPasswordPassesServerChecks | frontend/src/pages/ResetPasswordPage.js:70-96 | every password sent passes the handler's check and is trimmed; it passes the schema unless it holds a line terminator |
| ResetPasswordPage.TrimmedInputsSameOutcome | frontend/src/pages/ResetPasswordPage.js:56-57 | white space around the inputs never changes the outcome |
| ResetPasswordPage.NoLowerCaseNeeded | frontend/src/pages/ResetPasswordPage.js:70-88 | "ABCDEFG1!" is sent by the reset page but refused by the registration form |

## Left out

- Cryptography is idealised. bcrypt's one-way hashing, its 72-byte cut-off and cost factor, and JWT's HMAC signature and base64url layout are not modelled. A digest matches exactly its password, and a token verifies exactly under its key.
- Persistence is modelled as in-memory maps. Connection failures, `timestamps`, ObjectId generation (ids are consecutive numbers) and the order `find` returns are not modelled.
- Each request is one atomic step. Interleaving, such as two requests between `findOne` and `findByIdAndUpdate`, is not modelled.
- `getTasks`'s catch branch (`taskController.js:52-58`) is not modelled, because a query by the requester's id can only fail with a database fault, which the model does not have.
- The clock, the bcrypt salt, the `jwtid` made by `Math.random().toString(36).substring(2)` (`authController.js:163`) and the start of today are parameters.
- Mail delivery via the Resend service is a boolean parameter. The production recipient is a configuration field.
- Secrets, `NODE_ENV` and `FRONTEND_URL` are configuration fields. `LoadConfig` gives the values the program builds, but the handlers are stated for any `Config`. The model therefore also admits an empty reset secret, which the program cannot have; what `ResetToken` and `ForgotSpec` give for it describes that unreachable configuration. An empty session secret is reachable (`JWT_SECRET` unset).
- Replies are modelled by their status and the fixed texts the handlers write. `register` answers `{ userId }` or `{ message }` (`RegisterReply`), and its 400 carries the validation error's message, which is a parameter. The `err.message` a 500 from `login` or `forgotPassword` carries is not modelled (it is left empty).
- Logging, and the development-only `stack` and `details` in error replies, are not modelled.
- Rate limiting (`loginLimiter`) is not modelled. Its 429 errors appear only through the error handler's rule.
- CORS, cookie parsing, route wiring, `notFound` and the server set-up are not modelled.
- Request bodies are taken as the types the schemas declare. Mongoose's casting of strings to numbers and dates, and the `CastError`s of malformed ages or dates, are not modelled. An unknown `:id` is modelled as `PathId.NotAnObjectId`.
- `login` and `forgotPassword` take the e-mail as a string. A request with no e-mail, or a non-string e-mail, is not modelled.
- `lowercase` and `toLowerCase` act on ASCII letters only. Other letters are kept as they are.
- String lengths count characters, not JavaScript's UTF-16 code units. A password with characters outside the Basic Multilingual Plane counts shorter here.
- JSON `null` and an absent property are both `None`.
- UserModel.PasswordOk: a stored bcrypt digest is taken to pass the password validators when a loaded user is saved again. It is not checked against the pattern.
- AuthController.ResetSpec: its own contract states the frame and what a success needs and writes, not which refusal each failing request gets. Each outcome is stated by a lemma: success by `ResetUpdatedIff`; 500 for a missing or failing token by `ResetBadToken`, for an unknown user by `ResetUnknownUser`, for a missing password by `ResetMissingPassword`, and for a password with a line terminator by `LineTerminatorPasswordFailsLate`; 400 for a marker mismatch by `ResetMarkerMismatch` and for a weak password by `WeakPasswordChangesNothing`. The scenarios are `ForgotThenReset`, `NewerRequestInvalidatesOlder` and `ResetLinkReusable`.
- AuthController.LoginSpec and AuthController.VerifyAuth carry no contract of their own. `LoginRejectionsIdentical`, `LoginSession`, `RegisterThenLogin` and `AuthMiddleware.LoginThenVerify` state their behaviour.
- The registration page's DOM work is not modelled: showing and hiding errors, enabling the button, spinners, toasts, redirects and timers. This includes `showError` being declared twice (`RegisterPage.js:116` and `:190`), which decides where field messages are shown.
- The reset page's DOM work, toasts and redirect are not modelled. `Toast` gives the text each failing check shows.
- The login page, dashboard, task form, router, auth guard and the fetch wrappers in `services/` and `config/api.js` are not part of this model.
