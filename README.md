# Gatepass management: a Dafny model

A campus gatepass application. Students ask to leave campus. Faculty approve or
reject those requests. Security staff verify an approved pass by the code
generated when it was approved. This project models the core of that
application and proves properties of the model:

- the gatepass document: its status enum and default, its security code and
  its pre-save expiry hook;
- the four REST handlers that create, list, approve or reject, and verify
  gatepasses, over an in-memory collection;
- the front end's route guard;
- the front end's notification list;
- the registration form's validation schema.

Modules, one per source file:

| module | file | models |
|---|---|---|
| `Wrappers`, `Users` | common.dfy | optional values; a user as an id and a role |
| `GatepassModel` | gatepass_model.dfy | models/Gatepass.js: `Status`, the `Pass` record, `Trim`, `CodeFromRendering`, the save hook `Pass.Saved`, and the class `Gatepass` whose methods assign the document's fields in place |
| `GatepassRoutes` | gatepass_routes.dfy | routes/gatepass.js: a function on the collection's value for each handler (`RequestResult`, `ApproveResult`, `VerifyResult`); the class `GatepassStore`, whose handler methods change the loaded `Gatepass` objects and are proved equal to those functions; `Select` for `GET /requests` |
| `AppRoutes` | app_routes.dfy | src/App.js: `ProtectedRoute` and the route table |
| `Notifications` | notifications.dfy | src/components/common/NotificationSystem.js: receive, `markAsRead`, `unreadCount` |
| `Registration` | registration.dfy | src/components/auth/Register.js: the Yup schema |

Inputs replace the clock and the random number generator:

- `now` is the current time in milliseconds.
- `raw` is the base-36 rendering of `Math.random()` that `generateSecurityCode`
  cuts its code from.
- `newId` is the object id the database gives a new document.
- `users` is the user collection, which `POST /request` queries for the faculty
  member.

Facts of the code that its own surface text does not lead one to expect:

- The security code can be shorter than 6 characters. The security
  dashboard asks for "the 6-character security code" and caps the field at 6
  characters (src/components/security/SecurityDashboard.js:77-78). But
  `generateSecurityCode` takes `substring(2, 8)` of the rendering, so the code
  has at most 6 characters: 0.5 renders as `0.i` and gives the code `I`
  (`CodeMayBeShort`).
- A pending pass can become expired. Approving a pass whose return time has
  already passed runs the save hook, and the hook stores it as `expired`. `Step`
  and `ApproveOutcome` include that step.
- A reason made only of blanks is accepted. The validator's message is
  "Rejection reason is required" (routes/gatepass.js:85), but it tests the
  reason before any trimming. The faculty dialog's button is disabled only for
  an empty reason (src/components/faculty/FacultyDashboard.js:107), so it lets
  "  " through as well. The schema then trims the reason when storing it, and a
  reason of blanks is stored as the empty string (`BlankReasonIsStoredEmpty`).

## Model

| member | source | states |
|---|---|---|
| `GatepassModel.ParseStatus` | models/Gatepass.js:27-31 | the status field accepts exactly the five strings pending, approved, rejected, verified, expired, and each one parses to the status it names |
| `GatepassModel.StatusRoundTrip` | models/Gatepass.js:29 | every status is parsed back from the string stored for it |
| `GatepassModel.Trim` | models/Gatepass.js:14-18 | the schema's trim keeps the slice after the leading white space (the ECMAScript white space and line terminators that `String.prototype.trim` removes); that slice neither starts nor ends with white space, and only white space follows it |
| `GatepassModel.TrimIdempotent` | routes/gatepass.js:14 | trimming twice (the validator's trim, then the schema's) gives the same result as trimming once |
| `GatepassModel.Substring` | models/Gatepass.js:56 | JavaScript `substring` clamps both ends to the string; for start <= end it returns the characters from the clamped start to the clamped end |
| `GatepassModel.ToUpper` | models/Gatepass.js:56 | `toUpperCase` keeps the length and maps each character, turning lower-case ASCII letters into upper case |
| `GatepassModel.CodeFromRendering` | models/Gatepass.js:56 | the generated code has at most 6 characters, has exactly 6 when the rendering has at least 6 digits, and uses only characters from [0-9A-Z] when the rendering is that of a number in [0, 1) |
| `GatepassModel.CodeMayBeShort` | models/Gatepass.js:56 | the renderings "0.i" (for 0.5) and "0" (for 0) give the codes "I" and "" |
| `GatepassModel.Pass.IsExpired` | models/Gatepass.js:62-64 | a pass is expired when the current time is strictly after its return time; `ExpiryIsStrict` and `ExpiryIsPermanent` state its properties |
| `GatepassModel.Pass.Saved` | models/Gatepass.js:67-72 | the save hook changes only the status; it changes the status exactly when the pass is approved and expired, and then only to expired |
| `GatepassModel.NewPass` | models/Gatepass.js:3-52 | a new document has the given id, student, faculty member, out and in times and the trimmed purpose, is pending, has no code, no reason and no verification, is created at the current time, and the save hook leaves it unchanged |
| `GatepassModel.ExpiryIsStrict` | models/Gatepass.js:62-64 | `isExpired(now)` holds exactly when now > inTime; a pass is not expired at now == inTime |
| `GatepassModel.ExpiryIsPermanent` | models/Gatepass.js:62-64 | once a pass is expired it stays expired at every later time |
| `GatepassModel.SavedIdempotent` | models/Gatepass.js:67-72 | running the save hook twice at the same time gives the same result as running it once |
| `GatepassModel.Gatepass.constructor` | models/Gatepass.js:3-52 | `new Gatepass(...)` builds the schema's document: purpose trimmed, status pending, createdAt the current time, no optional field set |
| `GatepassModel.Gatepass.GenerateSecurityCode` | models/Gatepass.js:55-59 | the method returns the code cut from the rendering, stores exactly that code in securityCode and changes no other field |
| `GatepassModel.Gatepass.PreSave` | models/Gatepass.js:67-72 | after the hook the document is the old document with the save hook applied |
| `GatepassRoutes.RequestResult` | routes/gatepass.js:10-48 | `POST /request` on the collection's value: any reply but 201 leaves the collection unchanged, and a 201 returns the new document, filed under the new id, with nothing else changed |
| `GatepassRoutes.RequestOutcome` | routes/gatepass.js:10-43 | a request gets 201 exactly when a student sends a valid body naming a user with role faculty; it then adds one pending document from the caller to that faculty member, with the trimmed purpose and the requested out and in times; an unknown faculty member gets 400 "Faculty not found"; on every other outcome the collection is unchanged |
| `GatepassRoutes.QueryFor` | routes/gatepass.js:53-66 | the query built for a role selects exactly the passes that role may see: a student their own, a faculty member those addressed to them, security the approved ones, any other role all |
| `GatepassRoutes.InsertNewestFirst` | routes/gatepass.js:71 | inserting a pass at its place by creation time keeps the list newest first, keeps ids distinct, and adds exactly that pass |
| `GatepassRoutes.Select` | routes/gatepass.js:68-71 | find and sort return every document matching the query, each once, each equal to the stored document, newest first |
| `GatepassRoutes.ApproveResult` | routes/gatepass.js:81-141 | `PUT /approve/:id` on the collection's value: any reply but 200 leaves the collection unchanged, and a 200 returns the saved document, which replaces the existing entry under the id, with nothing else changed |
| `GatepassRoutes.ApproveNeedsPendingOwnPass` | routes/gatepass.js:81-102 | a faculty member with a valid body gets 404 exactly when the id is not a pending pass addressed to them; any change to the collection needs a faculty caller, a valid body and such a pass; every reply other than 200 leaves the collection unchanged |
| `GatepassRoutes.ApproveOutcome` | routes/gatepass.js:104-112 | rejecting stores the trimmed reason and leaves the code as it was; approving stores the generated code, and leaves the pass expired instead of approved when now > inTime; if another document holds the same code, the save fails (500) and nothing changes; the caller gets the saved document and only that entry changes |
| `GatepassRoutes.BlankReasonIsStoredEmpty` | routes/gatepass.js:85 | a rejection whose reason is only blanks passes the validator and is stored with an empty reason |
| `GatepassRoutes.VerifyResult` | routes/gatepass.js:144-182 | `PUT /verify/:id` on the collection's value: only a 200 or the "Gatepass has expired" 400 changes the collection, and either changes only the entry under the id; a 200 returns the saved document |
| `GatepassRoutes.VerifyNeedsApprovedExactCode` | routes/gatepass.js:144-164 | security staff with a non-empty code get 404 exactly when the id is not an approved pass whose stored code equals the code typed in; any change to the collection needs such a pass |
| `GatepassRoutes.VerifyOutcome` | routes/gatepass.js:166-177 | a pass whose return time has passed becomes expired, the reply is 400, and no verifier or time is recorded; otherwise the pass becomes verified, with the caller as verifier and now as the time |
| `GatepassRoutes.RequestFollowsLifecycle` | routes/gatepass.js:33-41 | a request keeps every existing document and adds only a pending one, and the optional fields stay coherent with the status |
| `GatepassRoutes.ApproveFollowsLifecycle` | routes/gatepass.js:104-112 | approving or rejecting moves a pass only from pending to approved, rejected or expired, keeps the request details, and keeps the optional fields coherent with the status |
| `GatepassRoutes.VerifyFollowsLifecycle` | routes/gatepass.js:166-175 | verifying moves a pass only from approved to verified or expired, keeps the request details, and keeps the optional fields coherent with the status |
| `GatepassRoutes.GatepassStore.Request` | routes/gatepass.js:17-48 | the handler's reply and the new collection are those `RequestResult` gives for the old collection |
| `GatepassRoutes.GatepassStore.ListRequests` | routes/gatepass.js:51-78 | the reply lists every stored pass visible to the caller's role, each once and as stored, newest first |
| `GatepassRoutes.GatepassStore.Approve` | routes/gatepass.js:86-141 | the handler's reply and the new collection are those `ApproveResult` gives for the old collection |
| `GatepassRoutes.GatepassStore.Verify` | routes/gatepass.js:148-182 | the handler's reply and the new collection are those `VerifyResult` gives for the old collection |
| `GatepassRoutes.GatepassStore.Insert` | routes/gatepass.js:41 | saving a new document files it under its own id and leaves every other document as it was |
| `GatepassRoutes.GatepassStore.Reject` | routes/gatepass.js:104-112 | the rejected document gets status rejected and the trimmed reason, passes the save hook, and no other document changes |
| `GatepassRoutes.GatepassStore.Accept` | routes/gatepass.js:104-112 | the approved document gets status approved and the code derived from the random rendering, passes the save hook, and no other document changes |
| `GatepassRoutes.GatepassStore.Expire` | routes/gatepass.js:166-168 | the late document gets status expired, and no other document changes |
| `GatepassRoutes.GatepassStore.MarkVerified` | routes/gatepass.js:172-175 | the document gets status verified, the officer and the time of verification, passes the save hook, and no other document changes |
| `AppRoutes.ProtectedRoute` | src/App.js:47-73 | the spinner shows exactly while loading; the page shows exactly when not loading, a user is logged in, and either no roles are given or the user's role is among them; a redirect goes to /login when there is no user and to /dashboard otherwise |
| `AppRoutes.Visit` | src/App.js:82-111 | login and registration always show; every other page shows the spinner exactly while loading, sends a visitor without a session to /login, and shows only to a logged-in user; the index sends a logged-in user to /dashboard |
| `AppRoutes.RolePagesAdmitOnlyTheirRole` | src/App.js:94-110 | the student, faculty and security pages each show only to the one matching role; other users are sent to /dashboard, and visitors without a session to /login |
| `AppRoutes.DashboardAdmitsEveryUser` | src/App.js:86-92 | the dashboard shows to every logged-in user, whatever their role |
| `Notifications.Receive` | src/components/common/NotificationSystem.js:43-49 | an incoming notification goes in front, unread, with id and time stamp taken from the clock; the old list follows unchanged, so the list grows by one |
| `Notifications.MarkAsRead` | src/components/common/NotificationSystem.js:68-76 | `markAsRead` keeps length and order; it marks read every entry with the given id and leaves every other entry as it was |
| `Notifications.Unread` | src/components/common/NotificationSystem.js:93 | the filtered list holds only unread entries, and each unread entry as often as the list does |
| `Notifications.UnreadCount` | src/components/common/NotificationSystem.js:93 | the badge's count never exceeds the list's length, and is zero exactly when every entry has been read |
| `Notifications.ReceiveAddsOneUnread` | src/components/common/NotificationSystem.js:43-49 | receiving a notification raises the unread count by exactly one |
| `Notifications.MarkAsReadIdempotent` | src/components/common/NotificationSystem.js:68-76 | marking an id as read twice gives the same list as marking it once |
| `Notifications.MarkAsReadCount` | src/components/common/NotificationSystem.js:68-76 | `markAsRead(id)` lowers the unread count by exactly the number of unread entries with that id |
| `Notifications.MarkAsReadLowersCountIff` | src/components/common/NotificationSystem.js:68-76 | `markAsRead` never raises the unread count, and lowers it exactly when some unread entry has the id |
| `Registration.Errors` | src/components/auth/Register.js:36-61 | name is reported exactly when shorter than 2 characters; email exactly when missing or malformed; password exactly when shorter than 6; role exactly when not one of student, faculty, security; student id exactly when the role is student and the field is empty; department exactly when the role is student or faculty and the field is empty |
| `Registration.Valid` | src/components/auth/Register.js:36-61 | the whole schema as one condition on the form; `ValidIffNoErrors` proves it agrees with an empty error set |
| `Registration.ValidIffNoErrors` | src/components/auth/Register.js:36-61 | a form is valid exactly when no field reports an error. Valid means: name of at least 2 characters, email present and well formed, password of at least 6 characters, role one of student, faculty or security, student id for students, department for students and faculty |
| `Registration.SecurityNeedsNoStudentIdOrDepartment` | src/components/auth/Register.js:49-60 | for the security role, the student id and department fields do not affect validity; such a form is valid without them exactly when name, email and password pass |
| `Registration.InitialFormIsRefused` | src/components/auth/Register.js:71-80 | the form's empty initial values fail on name, email, password and role |

## Left out

- Persistence: Mongoose `find`, `findOne`, `save` and the connection set-up are modelled as an in-memory map from object id to document. `populate`, which joins the student's and faculty member's names and emails into a reply, is not modelled.
- Database failures other than the unique index on securityCode are not modelled. These are the catch-all 500 replies. They include the CastError that a `:id` which is not a valid object id raises in `findOne`: the handler answers 500 for it, not 404 (routes/gatepass.js:94-102, 156-163). The model takes ids as already-parsed object ids.
- The unique sparse index on securityCode is modelled as a failed save (500) that leaves the collection unchanged. It is not a precondition.
- The authentication middleware (`auth`, `checkRole`) is not part of this model. The caller's id and role are inputs. A caller that `checkRole` refuses gets the reply `Forbidden`, and no status code is given for it.
- express-validator's `isMongoId` and `isISO8601` become parsed bodies: a field that fails is `None`. Yup's email format test is the parameter `isEmail`.
- `Math.random()` and its base-36 rendering are not modelled: the rendering is the input `raw`. `new Date()` is the input `now`. The verify handler reads the clock up to twice and the save hook once more; the model uses one `now` for all of these. The same holds in the front end: the socket handler of the notification list reads the clock twice, once for `id: Date.now()` and once for `timestamp: new Date()`. `Notifications.Receive` takes both from one `now`.
- GatepassRoutes.GatepassStore.Request: `newId` must not already be in the store. This stands for the database's fresh object id.
- Email notification (utils/emailService.js) is I/O and is not modelled. Its failure is caught and only logged. So the approve handler's stored outcome and reply, as `ApproveResult` states them, hold whether or not the email is sent.
- The socket.io connection, all React/MUI rendering, LoadingSpinner.js, Login.js, the menu and dashboard tables, and the status colour switches are presentation and are not modelled.
- Front-end-only constraints (the date picker's lower bound, the upper-casing of the typed code) are not modelled. The backend does not enforce outTime <= inTime, so the model does not either.
- GatepassRoutes.VerifyResult: every request-body value is taken to be a string or a parsed date. The server parses bodies with `express.json()` and does not sanitise them (server.js:15). `notEmpty()` lets an object or an array through. The verify handler passes `securityCode` as it is to `findOne` (routes/gatepass.js:155-160). There, an operator object such as `{"$ne": ""}` matches an approved pass under the id whatever its stored code, and an array matches any of its entries. So the exact-code guard of `VerifyNeedsApprovedExactCode` holds only for string codes. The same typing is assumed for the other handlers' bodies.
- GatepassRoutes.VerifyNeedsApprovedExactCode: the exact-code guard is proved for string codes only, for the reason given in the line above.
- GatepassModel.ToUpper: only ASCII letters are upper-cased. This covers every character of a base-36 rendering.
- Registration.Valid: the name and password lengths count Unicode characters, while Yup counts UTF-16 code units, as in the line below. A one-character name outside the Basic Multilingual Plane, such as "𝒜", is valid for Yup but not for `Valid`.
- Registration.Errors: lengths count Unicode characters, while Yup counts UTF-16 code units; the two differ only for characters outside the Basic Multilingual Plane. So a name of one character outside that plane, such as "𝒜", passes Yup's two-character minimum but fails `Valid` and `Errors`. The model also reports which fields fail, not Yup's messages.
- GatepassRoutes.Select: documents created at the same instant may come back in any order. The sort's order for ties is unspecified.
