# Task management backend: users, tasks, token middleware and pre-registration

This project models the core of a small Express and Mongoose backend for organizations that
manage volunteers and tasks, and it proves properties of that model in Dafny:

- **Token middleware** (`middleware/auth.js`). `verifyToken` takes the second space-separated
  segment of the `Authorization` header. It answers 401 when that segment is missing, 403 when
  the verifier rejects it, and otherwise stores the decoded payload in `req.user`. `isAdmin`
  lets a request through only when the role is exactly `admin`.
- **The User schema** (`models/User.js`). Casting and validation cover the required paths, the
  trim and lowercase setters, the role and notification enums, and the defaults. The model
  also covers the two compound unique indexes (e-mail and uniqueId, each per organization),
  the `pre('save')` hook that hashes a password at most once, `comparePassword`, and the
  `toJSON` transform that hides `_id` and `password`.
- **User routes** (`routes/userRoutes.js`):
  - listing every user;
  - replacing the whole collection, where the delete is not undone when the insert fails;
  - logging in by a case-insensitive e-mail match and a plain comparison of stored passwords.
- **The Task schema** (`models/Task.js`): required trimmed strings, optional program fields
  and deadline, the organization, the creation time, and a `toJSON` transform that hides `_id`.
- **Task routes** (`routes/taskRoutes.js`). Create, list, get, update and delete are all
  scoped to the caller's organization. Programs are checked to belong to that organization,
  and deleting a task cascades to that task's assignments in the same organization.
- **Pre-registration** (`index.js`, the `POST /pending-users` handler). The module-level arrays
  `users` and `pendingUsers` are fields of a class. The handler's `some` scans are loops. One
  record, with a hashed password, is appended.

Modules follow the source files:

| module | file | source |
|---|---|---|
| `Wrappers` | `wrappers.dfy` | `Option` and `Result` |
| `JsString` | `js_string.dfy` | the JavaScript string operations the core uses (`trim`, `toLowerCase`, `startsWith`, `split`) |
| `Json`, `Http` | `json.dfy` | JSON values, the object a `toJSON` transform edits in place, responses |
| `Auth` | `auth.dfy` | `middleware/auth.js` |
| `UserModel` | `user_model.dfy` | `models/User.js` |
| `UserRoutes` | `user_routes.dfy` | `routes/userRoutes.js` |
| `TaskModel` | `task_model.dfy` | `models/Task.js` |
| `TaskRoutes` | `task_routes.dfy` | `routes/taskRoutes.js` |
| `PreRegistration` | `pre_registration.dfy` | `index.js` lines 44-78 |

State that the source updates in place is held in classes:

- `Auth.Request`, whose `req.user` is set by `verifyToken`;
- `UserModel.UserDocument`, whose password `pre('save')` rewrites;
- `Json.Document`, the `ret` object of a transform;
- `UserRoutes.UserCollection`, `TaskRoutes.TaskStore` and `PreRegistration.Registry`, the collections.

Each handler method is proved equal to a pure function of the old state, and that function's
properties are proved as its own ensures and as lemmas.

These are parameters of the model:

- the token verifier (`jwt.verify` with the secret);
- the password hash (`bcrypt.hash`, with its random salt folded in);
- the password comparison (`bcrypt.compare`);
- new document ids and `uuidv4()`;
- the clock (`Date.now`, `new Date().toISOString()`).

Small consequences of the code, each proved:

- The scheme word in front of the token is never checked. `"Basic t"` and `"Bearer t"` are
  the same request (`Auth.SchemeIrrelevant`).
- Login compares the stored password as a plain string. Since `insertMany` does not run the
  `pre('save')` hook, passwords stored through `POST /api/users` are the raw ones.
- The pre-registration duplicate checks are case-sensitive (`PreRegistration.EmailCaseMatters`).
  The User schema, by contrast, lower-cases e-mails, so its index treats e-mails that differ
  only in case as the same (`UserModel.EmailsCollideIgnoringCase`).

## Model

| member | source | states |
|---|---|---|
| JsString.TrimStart | models/User.js:6-13 | the result is a suffix, everything dropped is white space, and it does not start with white space |
| JsString.TrimEnd | models/User.js:6-13 | the result is a prefix, everything dropped is white space, and it does not end with white space |
| JsString.Trim | models/User.js:6-13 | the result is no longer than the input and has no white space at either end; a string already trimmed is returned unchanged |
| JsString.TrimInfix | models/User.js:6-13 | the result is the infix of the input that starts after the leading white space, and everything behind it is white space; with the previous row this fixes the result |
| JsString.TrimmedValue | models/Task.js:5-9 | an optional path stays absent, or becomes its trimmed value |
| JsString.TrimIdempotent | models/Task.js:5-9 | trimming twice gives the same as trimming once |
| JsString.LowerChar | models/User.js:6 | an upper-case ASCII letter maps to its lower-case letter 32 code points up; every other character is kept |
| JsString.ToLowerCase | models/User.js:6 | same length, each character lower-cased, and no upper-case letter left |
| JsString.LowerIdempotent | models/User.js:6 | lower-casing twice gives the same as lower-casing once |
| JsString.LowerTrimStart | models/User.js:6 | lower-casing and trimming the start commute |
| JsString.LowerTrimEnd | models/User.js:6 | lower-casing and trimming the end commute |
| JsString.LowerTrimCommute | models/User.js:6 | the order in which the `trim` and `lowercase` setters run does not matter |
| JsString.Split | middleware/auth.js:6 | at least one segment, no segment contains the separator, and joining the segments gives back the input |
| JsString.JoinShape | middleware/auth.js:6 | the first segment is the prefix before the first separator; there is one segment exactly when the separator does not occur |
| JsString.JoinInjective | middleware/auth.js:6 | separator-free segment lists with equal joins are equal |
| JsString.SplitJoin | middleware/auth.js:6 | splitting the join of separator-free segments gives back those segments |
| Json.StrOrNull | models/User.js:15 | a present string is serialised as that string and an absent one as `null` |
| Json.Document.constructor | models/User.js:58 | the `ret` object starts as the serialised document |
| Json.Document.Delete | models/User.js:59-60 | `delete ret[key]` removes that key and keeps every other key and value |
| Http.ErrorReply | routes/userRoutes.js:17 | the body is exactly `{error: message}` with the given status |
| Http.Refusal | middleware/auth.js:9 | the body is exactly `{success: false, message}` |
| Auth.BearerToken | middleware/auth.js:5-6 | no header gives no token; an empty header gives the empty string; a truthy token contains no space and comes from a header that does |
| Auth.SchemeNotChecked | middleware/auth.js:6 | for any scheme word, `"<word> <token>"` yields exactly the token |
| Auth.SecondSegment | middleware/auth.js:6 | the token is the second segment, whatever follows it |
| Auth.TokenOutcome | middleware/auth.js:4-26 | 401 exactly when the token is falsy, 403 exactly when the verifier rejects it, and otherwise the verifier's payload goes on |
| Auth.NoSpaceNoAccess | middleware/auth.js:6-10 | a missing header, or one without a space, is always 401 |
| Auth.SchemeIrrelevant | middleware/auth.js:6 | two headers with the same token and different scheme words have the same outcome |
| Auth.AdminOutcome | middleware/auth.js:28-34 | passes exactly when a user is set whose role is exactly `admin`; otherwise a 403 refusal |
| Auth.Request.constructor | middleware/auth.js:5 | a request carries its header and no user yet |
| Auth.VerifyToken | middleware/auth.js:4-26 | the outcome is `TokenOutcome`; on success `req.user` is the payload, and otherwise it is unchanged |
| Auth.IsAdmin | middleware/auth.js:28-34 | the outcome is `AdminOutcome` of `req.user` |
| UserModel.ParseRole | models/User.js:9 | accepts exactly `admin` and `user`, and the name of the parsed role is the input |
| UserModel.ParsePreference | models/User.js:14 | accepts exactly `email`, `phone` and `none`, and the name of the parsed preference is the input |
| UserModel.RoleRoundTrip | models/User.js:9 | parsing a role's name gives the role back |
| UserModel.PreferenceRoundTrip | models/User.js:14 | parsing a preference's name gives the preference back |
| UserModel.EmailValue | models/User.js:6 | an absent e-mail stays absent; a present one is trimmed, then lower-cased |
| UserModel.RequiredCheck | models/User.js:6-16 | a `required` string path fails exactly when it is absent or empty, with one `Required` error |
| UserModel.RoleCheck | models/User.js:9 | the role passes exactly when absent (the default applies), `admin` or `user`; the empty string fails `required`, any other value the enum |
| UserModel.PreferenceCheck | models/User.js:14 | the preference passes exactly when absent or one of `email`, `phone` and `none`; any other value fails the enum |
| UserModel.Errors | models/User.js:5-18 | a document has no validation errors exactly when every path is acceptable |
| UserModel.CastUser | models/User.js:5-18 | a refusal lists at least one error; a cast user has the given id, and the given creation time or else the current one |
| UserModel.CastAccepts | models/User.js:5-18 | validation passes exactly when every required path is present and non-blank after trimming, the role is in its enum and the preference is in its enum |
| UserModel.CastNormalises | models/User.js:5-18 | a cast user is well formed: the e-mail is trimmed and lower-cased, the other strings are trimmed, the password is kept as given, and the defaults `user`, `none`, `''` and `null` apply |
| UserModel.RecastAccepted | models/User.js:5-18 | a stored user's own paths are acceptable and pass validation again |
| UserModel.NormalisedIsIdentity | models/User.js:5-18 | normalising a well-formed user's own fields gives the same user |
| UserModel.RecastIsIdentity | models/User.js:5-18 | casting a stored user's paths gives that user back unchanged |
| UserModel.AppendKeepsIndexes | models/User.js:20-22 | adding a user keeps the `_id` index and both compound unique indexes exactly when it collides with no stored user |
| UserModel.SameIdentityTwoOrganizations | models/User.js:20-22 | two documents with distinct `_id`s may have the same e-mail and uniqueId, once in each of two organizations |
| UserModel.EmailsCollideIgnoringCase | models/User.js:6-22 | an e-mail that differs from a stored one in the same organization only in case or surrounding white space collides |
| UserModel.IsBcryptHash | models/User.js:33 | a password counts as hashed exactly when it starts with `$2a$`, `$2b$` or `$2y$` |
| UserModel.PreSaveHook | models/User.js:25-45 | no hashing when the password is not modified or already carries a bcrypt prefix; otherwise the hash, or an abort when hashing fails |
| UserModel.HashAtMostOnce | models/User.js:31-35 | running the hook again on what it saved changes nothing, since a hashed password is recognised by its prefix |
| UserModel.UserDocument.constructor | models/User.js:25-27 | a document holds a password and its modified flag |
| UserModel.UserDocument.PreSave | models/User.js:25-45 | the password after the hook is `PreSaveHook`'s, or the old one when the hook aborts |
| UserModel.ComparePassword | models/User.js:48-53 | false for a candidate that is not a string, and otherwise the comparer's answer |
| UserModel.SavedPasswordVerifies | models/User.js:25-53 | a sanity check: under a comparer that accepts each plaintext against its hash, a plaintext password saved through the hook verifies against what was stored |
| UserModel.Serialised | models/User.js:5-18 | the serialised document carries `_id` and the password, the two keys the transform removes |
| UserModel.SerialisedPaths | models/User.js:5-18 | the serialised document has exactly the thirteen schema paths, `_id` included |
| UserModel.JsonView | models/User.js:55-62 | exactly `_id` and `password` are removed and every other key keeps its value |
| UserModel.ToJsonTransform | models/User.js:58-61 | the transform leaves `ret` equal to `JsonView` of it |
| UserModel.PublicView | models/User.js:55-62 | a serialised user has every schema path except `_id` and `password`, each with its serialised value |
| UserModel.PublicViewShows | models/User.js:55-62 | the view shows the user's e-mail, uniqueId, role and organization |
| UserRoutes.CastEach | routes/userRoutes.js:14 | casting documents one by one succeeds exactly when every cast does, and then holds each document's cast at its index |
| UserRoutes.CastAll | routes/userRoutes.js:14 | the whole body is accepted exactly when every document casts, and then each stored user is that document's cast |
| UserRoutes.InsertOrdered | routes/userRoutes.js:14 | an ordered insert keeps what was stored and adds a prefix of the documents; when that prefix stops short, the next document collides; the unique indexes are kept |
| UserRoutes.InsertsEverything | routes/userRoutes.js:14 | every document goes in exactly when the stored users and the documents together keep all three unique indexes |
| UserRoutes.ListReply | routes/userRoutes.js:6-9 | 200 with every user, in stored order, each without password |
| UserRoutes.LoginPattern | routes/userRoutes.js:22-23 | the pattern is the given e-mail, or the text `undefined` when there is none |
| UserRoutes.FindByEmail | routes/userRoutes.js:23 | the first user whose e-mail equals the pattern ignoring case, or none exactly when no user's does |
| UserRoutes.UnescapedDotMatchesOther | routes/userRoutes.js:23 | with the e-mail spliced in unescaped, the pattern for `a.b@x.com` matches the different address `axb@x.com` |
| UserRoutes.DotMatchesWithoutDots | routes/userRoutes.js:23 | for an e-mail without `.`, the unescaped pattern and the intended escaped one match the same addresses |
| UserRoutes.LoginReply | routes/userRoutes.js:21-27 | 404 exactly when no e-mail matches; 401 exactly when the first match's stored password differs from the given one; otherwise 200 with that user's public view |
| UserRoutes.UnknownEmailIgnoresPassword | routes/userRoutes.js:23-24 | whether login answers 404 does not depend on the password |
| UserRoutes.FindIgnoresCase | routes/userRoutes.js:23 | two patterns equal ignoring case find the same user |
| UserRoutes.LoginIgnoresCase | routes/userRoutes.js:23-26 | two e-mails equal ignoring case give the same login reply |
| UserRoutes.MissingPasswordRefused | routes/userRoutes.js:25 | a login without a password never succeeds |
| UserRoutes.UserCollection.constructor | routes/userRoutes.js:4 | the collection starts empty and keeps its indexes |
| UserRoutes.UserCollection.GetAll | routes/userRoutes.js:6-9 | the reply is `ListReply` of the stored users |
| UserRoutes.UserCollection.Login | routes/userRoutes.js:21-27 | the reply is `LoginReply` of the stored users |
| UserRoutes.UserCollection.ReplaceAll | routes/userRoutes.js:11-19 | the old users are gone; a validation error leaves the collection empty with 500; otherwise the ordered insert is stored, and the reply is 200 exactly when every document went in; the indexes hold afterwards |
| UserRoutes.UserCollection.InsertMany | routes/userRoutes.js:14 | the loop stores exactly `InsertOrdered` of the documents and reports whether all went in |
| UserRoutes.InsertStep | routes/userRoutes.js:14 | one round of the ordered insert: a document that collides with nothing goes in, and the indexes and the rest of the insert are unchanged |
| UserRoutes.InsertHead | routes/userRoutes.js:14 | a first document that collides with nothing is stored, and the insert goes on with the rest |
| TaskModel.Errors | models/Task.js:5-11 | no errors exactly when title, description and requiredSkills are non-blank after trimming and the organization is truthy |
| TaskModel.CastTask | models/Task.js:4-13 | refused exactly when a required path is missing or blank; otherwise a well-formed task with trimmed strings, the program and deadline as given, and the current time |
| TaskModel.Serialised | models/Task.js:4-13 | the serialised document carries `_id`, the title and the organization; it has a `deadline` key exactly when the task has a deadline, holding that time |
| TaskModel.JsonView | models/Task.js:15-21 | exactly `_id` is removed and every other key keeps its value |
| TaskModel.ToJsonTransform | models/Task.js:18-20 | the transform leaves `ret` equal to `JsonView` of it |
| TaskModel.PublicView | models/Task.js:15-21 | a serialised task has no `_id`, keeps its title and organization, and has a `deadline` key exactly when it has a deadline |
| TaskRoutes.ServerError | routes/taskRoutes.js:40-43 | the catch block's reply is exactly `{success: false, message, error}` with status 500, where `error` lists the failing paths in order |
| TaskRoutes.GateOutcome | routes/taskRoutes.js:10 | the middleware chain passes exactly when the token passes, and, on admin routes, the role is `admin`; otherwise it answers 401 or 403 |
| TaskRoutes.Authorize | routes/taskRoutes.js:10 | running `verifyToken` then `isAdmin` on a request gives `GateOutcome`; `req.user` is the token's payload whenever the token is accepted, even if `isAdmin` then refuses, and unchanged otherwise |
| TaskRoutes.FindProgram | routes/taskRoutes.js:24 | a program with that id in that organization, or none exactly when there is no such program |
| TaskRoutes.FirstTask | routes/taskRoutes.js:66 | the first task with that id in that organization, or none exactly when there is no such task |
| TaskRoutes.TasksOf | routes/taskRoutes.js:52 | a task is listed exactly when it is stored under that organization |
| TaskRoutes.TasksOfCount | routes/taskRoutes.js:52 | each task of the organization is kept as often as it is stored, and every other task is dropped |
| TaskRoutes.TasksOfSingle | routes/taskRoutes.js:52 | a single task is kept exactly when it belongs to the organization |
| TaskRoutes.TasksOfAppend | routes/taskRoutes.js:52 | filtering by organization distributes over concatenation; with the previous row this makes the result the order-preserving filter |
| TaskRoutes.PrependNewestFirst | routes/taskRoutes.js:52 | a task no older than the head of a newest-first list keeps it newest first when put in front |
| TaskRoutes.InsertBehindHead | routes/taskRoutes.js:52 | the head of a list, put in front of the insertion into its tail, gives a newest-first list with exactly the inserted task added |
| TaskRoutes.InsertNewestFirst | routes/taskRoutes.js:52 | inserting into a newest-first list keeps it newest first and adds exactly that task |
| TaskRoutes.SortNewestFirst | routes/taskRoutes.js:52 | the sorted list is newest first and a permutation of the input |
| TaskRoutes.ListedTasks | routes/taskRoutes.js:52 | exactly the organization's tasks, each as often as stored (the same multiset as `TasksOf`), newest first |
| TaskRoutes.ResolveProgram | routes/taskRoutes.js:22-29 | no program exactly when programId is falsy; refused exactly when no program with that id is in the organization; otherwise that program's name |
| TaskRoutes.ProgramIdOf | routes/taskRoutes.js:33 | the stored programId is the linked program's id, and `null` when no program is linked |
| TaskRoutes.ProgramNameOf | routes/taskRoutes.js:28-34 | the stored programName is the linked program's name when that is truthy, and `null` otherwise |
| TaskRoutes.CreateOutcome | routes/taskRoutes.js:10-44 | 403 exactly without an organization, with its fixed refusal; 400 exactly for a missing required field or a foreign program, each with its own refusal; 500 exactly when, past those checks, a required field is blank once trimmed, with the create failure message; 201 exactly when a task is saved: title, description and requiredSkills trimmed, the deadline as given, stamped with the caller's organization, the program's id and trimmed name, and the current time |
| TaskRoutes.ListReply | routes/taskRoutes.js:47-58 | 403 exactly without an organization, with its fixed refusal; otherwise 200 with exactly the organization's tasks, newest first, without `_id` |
| TaskRoutes.GetReply | routes/taskRoutes.js:61-75 | 403 exactly without an organization and 404 exactly when no task has this id in the organization, each with its fixed refusal; otherwise 200 with such a task |
| TaskRoutes.UpdateErrors | routes/taskRoutes.js:97-101 | the update validators pass exactly when every written required path is non-blank after trimming |
| TaskRoutes.ApplyUpdate | routes/taskRoutes.js:97-101 | written paths take their trimmed values, unwritten ones are kept, and the id and creation time never change |
| TaskRoutes.UpdateIdempotent | routes/taskRoutes.js:97-101 | applying the same update twice gives the same task as applying it once |
| TaskRoutes.UpdateKeepsWellFormed | routes/taskRoutes.js:97-101 | an update that passes its validators keeps a stored task well formed |
| TaskRoutes.UpdateOutcome | routes/taskRoutes.js:78-110 | 403 exactly without an organization; 400 exactly for a foreign program; 500 exactly when, past those checks, a written title, description or requiredSkills is blank once trimmed; 404 exactly when, past those, no task has this id in the organization; each with its fixed message; otherwise 200 with the first such task under `ApplyUpdate` of the body, the program's id and name and the organization |
| TaskRoutes.DeleteOutcome | routes/taskRoutes.js:113-124 | 403 exactly without an organization and 404 exactly when no task has this id in the organization, each with its fixed refusal; otherwise the first such task is deleted and the body is `{success: true, message}` |
| TaskRoutes.RemoveAt | routes/taskRoutes.js:118 | exactly the one task goes, the others keep their order, and no task is added |
| TaskRoutes.WithoutTaskAssignments | routes/taskRoutes.js:123 | an assignment is removed exactly when it has that task id and that organization |
| TaskRoutes.WithoutCount | routes/taskRoutes.js:123 | every other assignment stays as often as it was stored, and the task's assignments all go |
| TaskRoutes.WithoutSingle | routes/taskRoutes.js:123 | a single assignment stays exactly when it is not one of the task's |
| TaskRoutes.WithoutAppend | routes/taskRoutes.js:123 | the delete distributes over concatenation; with the previous row this makes it the order-preserving filter |
| TaskRoutes.DeleteIsolation | routes/taskRoutes.js:118 | deleting a task leaves every other organization's task list unchanged |
| TaskRoutes.UpdateIsolation | routes/taskRoutes.js:97-99 | updating a task leaves every other organization's task list unchanged |
| TaskRoutes.CreateIsolation | routes/taskRoutes.js:31-38 | a created task does not appear in any other organization's list |
| TaskRoutes.AppendFreshId | routes/taskRoutes.js:38 | appending a task keeps the `_id` index exactly when no stored task has its id |
| TaskRoutes.RemoveKeepsDistinct | routes/taskRoutes.js:118 | removing a task keeps the `_id` index |
| TaskRoutes.ReplaceKeepsDistinct | routes/taskRoutes.js:97-101 | replacing a task by one with the same id keeps the `_id` index |
| TaskRoutes.UpdateOutcomeWellFormed | routes/taskRoutes.js:97-101 | the task a successful update stores passes the schema whenever the one it replaces did |
| TaskRoutes.TaskStore.constructor | routes/taskRoutes.js:4-6 | the store starts with the given programs, no tasks and no assignments, and satisfies its invariant (distinct `_id`s, every task well formed) |
| TaskRoutes.TaskStore.Create | routes/taskRoutes.js:10-44 | the middleware's answer, or `CreateOutcome`'s reply with at most the saved task appended; programs and assignments unchanged; the invariant is kept when the generated id is fresh |
| TaskRoutes.TaskStore.CreateAs | routes/taskRoutes.js:11-44 | past the gate, the reply is `CreateOutcome`'s and the saved task, if any, is appended; programs and assignments are unchanged; the invariant is kept when the generated id is fresh |
| TaskRoutes.TaskStore.Commit | routes/taskRoutes.js:37-39 | the reply is the decided one, the saved task, if any, goes at the end of the collection, and nothing else changes; a well-formed task with a fresh id keeps the invariant |
| TaskRoutes.TaskStore.List | routes/taskRoutes.js:47-58 | the middleware's answer or `ListReply` |
| TaskRoutes.TaskStore.Get | routes/taskRoutes.js:61-75 | the middleware's answer or `GetReply` |
| TaskRoutes.TaskStore.Update | routes/taskRoutes.js:78-110 | the middleware's answer, or `UpdateOutcome`'s reply with at most the matched task replaced in place; the invariant is kept |
| TaskRoutes.TaskStore.Delete | routes/taskRoutes.js:113-129 | the middleware's answer, or `DeleteOutcome`'s reply; on success the task is removed and its assignments in the organization with it; programs unchanged; the invariant is kept |
| PreRegistration.Complete | index.js:48 | the body is complete exactly when all five fields are present and non-empty |
| PreRegistration.Taken | index.js:53-54 | an e-mail (or uniqueId) is taken exactly when some record has exactly that value in that field |
| PreRegistration.TakenAppend | index.js:53-54 | testing `users` and then `pendingUsers` is the same as testing both arrays together |
| PreRegistration.Admit | index.js:44-71 | 400 exactly when one of the five fields is falsy; 409 exactly when a record of either array has the e-mail or the uniqueId; otherwise a record with the hashed password and the other fields as supplied |
| PreRegistration.RecordJson | index.js:63-77 | the 201 body has exactly the record's seven keys, each holding the stored value, the hashed password included |
| PreRegistration.AdmitKeepsDistinct | index.js:53-74 | an admitted record keeps e-mails and uniqueIds distinct across both arrays |
| PreRegistration.EmailCaseMatters | index.js:53-54 | a complete body whose e-mail differs from a stored one only in case, and which matches no record exactly, is admitted |
| PreRegistration.AnyHas | index.js:53-54 | the `some` scan finds the value exactly when some record has it in that field |
| PreRegistration.Registry.constructor | index.js:32-33 | both arrays start empty and distinct |
| PreRegistration.Registry.PostPendingUser | index.js:44-78 | `users` never changes; `pendingUsers` is unchanged on a refusal and grows by exactly the admitted record at the end otherwise; distinctness is preserved |

## Left out

- Server start-up, the database connection, CORS and JSON parsing are not modelled, since they are I/O. This covers `server.js` and the lines of `index.js` outside 44-78. That part of `index.js` also repeats declarations, so it is not one program.
- The e-mail services (`utils/`) are not modelled. The core does not call them.
- The assignment, program, pending-user, admin-log and current-user routes and their schemas are not modelled. The assignment, program and pending-user routes repeat the replace-all pattern of `routes/userRoutes.js`. The admin-log routes create and list log entries behind `verifyToken` and `isAdmin`, with a 400 for a missing `logText` and a newest-first sort on `timestamp`; they follow the create and list handlers of the task routes but are not modelled. `routes/currentUserRoutes.js` is a stub that answers 501, and as written it cannot load, because it binds `express` to a string and then calls `express.Router()`. The schemas hold no logic.
- `Program` and `Assignment` carry `organizationId` and `taskId` as optional fields. The routes query on those fields, but the schemas in `models/Program.js` and `models/Assignment.js` do not declare them.
- The query filters are modelled as Mongoose 7 and later apply them, with `strictQuery` off: a filter on a path the schema does not declare is passed to MongoDB unchanged. Stored programs and assignments may carry those undeclared paths, as `Option` values. A document written through the strict schema lacks them (`None`), so `FindProgram` finds no such program and the cascading delete removes no such assignment. Under Mongoose 6, where `strictQuery` is on, the filters would lose those paths; the program lookup would then match on `_id` alone and the cascading delete would become `deleteMany({})`, which removes every assignment. That behaviour is not modelled.
- Dates (`createdAt`, `deadline`) are integer time stamps, and the serialised documents render them as JSON numbers, not as the ISO text `toJSON` gives a `Date`.
- The `_id`s of the documents given to the replace-all `insertMany` are inputs: a document without `_id` is modelled as already holding the fresh id Mongoose would generate.
- `PreRegistration.Hasher` and `UserModel.Hasher` are two types on purpose: the pre-save hook's hash can fail and is reported through `next(error)`, while the `bcrypt.hash` of `POST /pending-users` has no `catch` in the handler, so its failure is not modelled.
- UserModel.SavedPasswordVerifies is a sanity check under an assumed comparer; the real `bcrypt.compare` is not modelled.
- Concurrency between requests and the interleaving of `await` points are not modelled. Each handler runs as one atomic step.
- JSON `null` and values of other types in request bodies are not modelled. Body fields are absent or strings, and a deadline is absent or a number.
- Malformed ObjectIds are not modelled. In the source such an id makes Mongoose throw before the query and the handler answers 500; here every string is a valid id.
- Errors the database raises outside validation and unique indexes are not modelled. These are the 500 replies of the `catch` blocks for list, get and delete.
- UserRoutes.UserCollection.ReplaceAll: the 500 message is the fixed start of Mongoose's message, not the full text of `err.message`.
- TaskRoutes.ServerError: `err.message` is modelled as the list of failing paths, not Mongoose's message text.
- A thrown `save()` inside `PreSaveHook` is modelled only as the hash returning `None`.
- Hashing, token verification, bcrypt comparison and id generation are function parameters, so their cryptographic properties are not modelled. The bcrypt salt is folded into the hash parameter.
- `new RegExp(`^${email}$`, 'i')` is modelled as whole-string equality ignoring case, the match the route evidently intends (see Findings). The source does not escape the e-mail, so its metacharacters do act. This reaches ordinary logins: `.` matches any character, so a login for `a.b@x.com` can find a stored `axb@x.com` that comes first, and an e-mail of `.*` matches the first stored user. `UserRoutes.DotMatches` models only the `.` case of the code as written; the other metacharacters are not modelled.
- The generated `_id` of a new task is a parameter. `TaskStore.Create` keeps its invariant when that id is fresh, as an ObjectId is; the 500 that MongoDB's `_id` index would give for a duplicate is not modelled.
- `toLowerCase` is modelled for ASCII letters only.
- Trimming uses the ECMAScript white-space and line-terminator set, character by character. Code points outside the basic plane are not treated specially.
- In `toJSON`, the `virtuals: true` option (the added `id` path) and `versionKey: false` are not modelled. The serialised documents are the schema paths plus `_id`.
- The stable order among tasks with equal `createdAt` is one particular order. TaskRoutes.SortNewestFirst promises only the newest-first order and the permutation.
- The console warning in `verifyToken` for a payload without `organizationId` is not modelled, since it is output only.

## Findings

| source | as written | input that shows it | evidently intended | confidence | as-written member | corrected member |
|---|---|---|---|---|---|---|
| routes/userRoutes.js:23 | the e-mail is spliced into `^${email}$` unescaped, so its `.` matches any character | login with `a.b@x.com` while `axb@x.com` is stored | a case-insensitive match of exactly the given address (an escaped pattern) | high; not executed | UserRoutes.UnescapedDotMatchesOther | UserRoutes.FindByEmail |
