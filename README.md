# Visitor log: accounts, session and visitor ledger

A model of the two classes that hold the logic of a front-desk visitor-log web
client.

- `Auth` (module `Authentication`, file `auth.dfy`) keeps the session of the
  client (`currentUser`, and its copy in local storage) over the remote `users`
  collection. It bootstraps a default administrator, registers users with input
  validation, logs in and out, answers `isAdmin`, updates the signed-in user's
  profile, lists users without their passwords, and lets administrators update
  any user.
- `VisitorManager` (module `VisitorLog`, file `visitors.dfy`) keeps the visitor
  ledger in two stores: the remote `visitors` collection and a fallback log in
  local storage. Check-in appends a record to both stores, though the remote
  write may fail. Check-out marks a record `Out`. Loading takes the remote list
  when the remote store can be read and is non-empty, and the local log
  otherwise.
- The table view of `renderLogs` (module `VisitorView`, file `view.dfy`) sorts
  the loaded records newest first by id and narrows them by a search term. It is
  a pipeline of pure functions.

How the model represents the code:

- User records are JSON objects whose fields are all strings, so they are
  `map<string, string>`. Removing the password (`{ password, ...rest }`) is
  `u - {"password"}`. `Object.assign` is map union. A database `update(patch)`
  overwrites the patch's fields, creates a missing record, and does nothing for
  an empty patch. A missing field reads as `""`, because both are falsy.
- The remote database is a field of each class: `Auth.users` is a map keyed by
  username, and `VisitorManager.remote` is a sequence in push order. Local
  storage is also a field. `Auth.savedSession` is the `currentUser` slot.
  `VisitorManager.local` is the `visitorLogs` slot, and `None` means absent.
- Each operation takes one `online` flag for the database calls it makes. When
  it is false, the calls throw. Every `Auth` operation except
  `initializeDefaultAdmin`, which swallows it, passes the error on as
  `RemoteUnavailable`. `VisitorManager` swallows it and carries on with local
  storage.
- Clock readings are parameters: `now` for `toISOString()`, a `Clock` for
  check-in, and `exitTime` for check-out.
- `Auth` keeps the invariant `Valid()`: the saved session always equals
  `currentUser`, and no stored user record is empty (the database drops empty
  objects, so the directory the constructor starts from has none either). `VisitorManager` keeps the invariant `Valid()`: in both stores,
  a record whose status is `In` has an empty exit time.
- Errors are values (`Outcome`, `Result`, `Option`), not preconditions. The
  comments on `AuthError` give the messages the code throws.

Behaviour of the code worth knowing:

- `register` resolves to `true` (`Done`), not to the new account.
- `updateUser` demands an administrator for every update, the user's own
  included. A user updates their own record through `updateProfile`.
- `updateProfile` copies every supplied field into `currentUser`. It deletes
  only a truthy password, so an update carrying `password: ""` leaves
  `password: ""` in the session. `SessionAfterUpdate` states which password,
  if any, the session holds afterwards, and `SessionNeverGainsPassword` that a
  session without a password never gains a non-empty one. The application's
  form never sends an empty field.
- For the same reason an `updateProfile` carrying `role: "admin"` writes
  nothing to the directory but makes the session an administrator, which then
  passes the check of `updateUser` (`RoleThroughProfile`). The application's
  profile form sends only the full name, email and password.
- A second check-out of the same id re-sets the exit time. It does not refuse.

## Model

| member | source | states |
|---|---|---|
| `Authentication.WithoutPassword` | scripts/auth.js:101-103 | the result has no `password` field, and every other field of the record is kept with its value |
| `Authentication.DefaultAdmin` | scripts/auth.js:24-32 | the default record has exactly the seven fields, username `admin`, password `admin123`, status `active`, role `admin` and the given creation time |
| `Authentication.Bootstrapped` | scripts/auth.js:19-39 | the directory is untouched unless it is empty and reachable; then it holds exactly the `admin` record (password `admin123`, active), and that record is the only administrator |
| `Authentication.BootstrapIdempotent` | scripts/auth.js:21-22 | once the directory is non-empty, a second bootstrap changes nothing |
| `Authentication.BootstrapTwiceOneAdmin` | scripts/auth.js:21-33 | bootstrapping an empty directory twice leaves exactly one administrator |
| `Authentication.CheckRegistration` | scripts/auth.js:45-52 | a missing username, password or full name fails with the required-fields error whatever the password length; with all three present, the password is too short iff its length is below 6 |
| `Authentication.PasswordLengthBoundary` | scripts/auth.js:50-52 | a 5-character password is refused and a 6-character one accepted |
| `Authentication.NewUser` | scripts/auth.js:61-69 | the new record has exactly the seven fields; username, password and full name are copied, the email is the given one or the empty string, and the user is active and not an administrator |
| `Authentication.Registered` | scripts/auth.js:41-81 | the errors come in the order of `register` (fields, then length, then the remote read, then the duplicate check); a failure leaves the directory unchanged; success adds exactly one record under the new username, with the given password and name, role `user`, status `active` and email defaulted to the empty string, and every other record unchanged |
| `Authentication.Authenticate` | scripts/auth.js:83-99 | an unknown username and a wrong password both give `InvalidCredentials`; `AccountDeactivated` only when the password matched; success iff the user exists, the password matches and the status is `active`, and then the stored record without its password |
| `Authentication.WrongPasswordRevealsNothing` | scripts/auth.js:85-95 | with a wrong password, the answer is the same as if the username did not exist |
| `Authentication.RegisterThenLogin` | scripts/auth.js:61-103 | right after a successful registration, logging in with the same credentials succeeds with role `user`, and the session is not an administrator |
| `Authentication.HasAdminRole` | scripts/auth.js:123 | a null session is not an administrator; otherwise the session is one iff it has a `role` field equal to `admin` |
| `Authentication.LoginAdminIffStoredAdmin` | scripts/auth.js:101-124 | after a successful login, `isAdmin` holds iff the stored record's role is `admin` |
| `Authentication.ApplyUpdate` | scripts/auth.js:179 | a database update on `users/key` changes no other key; the patch's fields overwrite, the record's other fields stay; a missing record is created unless the patch is empty |
| `Authentication.ProfileUpdates` | scripts/auth.js:132-135 | exactly the truthy `fullName`, `email` and `password` go to the directory, with their values |
| `Authentication.SessionAfterUpdate` | scripts/auth.js:139-143 | every supplied field overwrites the session's field and the others stay; a password remains only if the update did not carry a truthy one, and a password the session lacked can only come in as `""`; the username is unchanged unless the update names one; a remaining password is the update's own (an empty one) or else the session's |
| `Authentication.SessionNeverGainsPassword` | scripts/auth.js:139-143 | a session without a password (as `login` leaves it) has none, or only an empty one, after any profile update |
| `Authentication.RoleThroughProfile` | scripts/auth.js:123-143 | a profile update carrying `role: "admin"` sends nothing to the directory and makes the session an administrator |
| `Authentication.SessionKey` | scripts/auth.js:137 | the directory key is the session's username, or `"undefined"` when the session has none |
| `Authentication.Auth.constructor` | scripts/auth.js:3-6 | from a directory without empty records, the directory is bootstrapped, and `currentUser` is the saved session (null if none) |
| `Authentication.Auth.Init` | scripts/auth.js:8-17 | bootstraps the directory, and adopts the saved session only if one exists |
| `Authentication.Auth.InitializeDefaultAdmin` | scripts/auth.js:19-39 | the directory becomes `Bootstrapped` of the old directory |
| `Authentication.Auth.Register` | scripts/auth.js:41-81 | the outcome and the new directory are those of `Registered`; the session is not touched |
| `Authentication.Auth.Login` | scripts/auth.js:83-115 | on success `currentUser` is the stored record without its password and the saved session equals it; on any failure the session is unchanged |
| `Authentication.Auth.Logout` | scripts/auth.js:117-120 | the session and its saved copy are both cleared, and `isAdmin` is false |
| `Authentication.Auth.IsAdmin` | scripts/auth.js:122-124 | holds iff there is a current user whose role is `admin` |
| `Authentication.Auth.UpdateProfile` | scripts/auth.js:126-151 | with nobody signed in it fails with `NotLoggedIn` and changes nothing; otherwise the directory entry under the session's username gets only the truthy profile fields, and the session and its saved copy become `SessionAfterUpdate`, so a session without a password gains no non-empty one |
| `Authentication.Auth.GetAllUsers` | scripts/auth.js:153-171 | one entry per stored user, each the stored record without its password, and `[]` for an empty directory; a failed read rejects |
| `Authentication.Auth.UpdateUser` | scripts/auth.js:173-185 | a non-administrator gets `NotAdministrator` and the directory is unchanged; an administrator's update is `ApplyUpdate` |
| `VisitorView.SortNewestFirst` | scripts/visitors.js:110 | the result is in descending order of id and is a permutation of the input |
| `VisitorView.Lower` | scripts/visitors.js:114-117 | lower-cases each character in place (ASCII letters only) and keeps the length |
| `VisitorView.Contains` | scripts/visitors.js:114-117 | `includes` of the empty string always holds, and a text never includes a term longer than itself |
| `VisitorView.Matches` | scripts/visitors.js:114-117 | every record matches the empty term, and no record matches a term longer than its name, phone, host and purpose |
| `VisitorView.ContainsAt` | scripts/visitors.js:114-117 | `includes` holds exactly when the term occurs at some offset of the text |
| `VisitorView.Filter` | scripts/visitors.js:113-118 | the result is an order-preserving subsequence of the input, and holds exactly the matching records (name, host or purpose contain the term after lower-casing both sides, or the phone contains it verbatim), each as often as in the input |
| `VisitorView.Search` | scripts/visitors.js:113-118 | an empty term keeps every record in order; otherwise the result is that of `Filter` |
| `VisitorView.SubsequenceNewestFirst` | scripts/visitors.js:110-118 | filtering a newest-first list keeps it newest first |
| `VisitorView.View` | scripts/visitors.js:105-118 | the rows shown are newest first and are exactly the loaded records that match the term (all of them for an empty term); an empty result is the "No visitors found" row |
| `VisitorLog.NewRecord` | scripts/visitors.js:15-23 | the record's id is the supplied one or else the clock's milliseconds; the six text fields are copied; it is `In` with no exit time, stamped with the clock's local and ISO times and the signed-in user |
| `VisitorLog.CallerStampsIgnored` | scripts/visitors.js:15-23 | entry time, exit time, status, logged-by and creation time supplied by the caller never reach the record, which is always `In` with no exit time |
| `VisitorLog.FirstIndexOf` | scripts/visitors.js:90 | gives -1 iff no record has the id, and otherwise the first index whose record has it |
| `VisitorLog.CheckedOut` | scripts/visitors.js:88-98 | reports success iff some record has the id; on success only the first such record changes, to status `Out` with the new exit time; on failure the log is unchanged; the length and the ids are kept, and no `Out` record goes back to `In` |
| `VisitorLog.CheckoutTwice` | scripts/visitors.js:88-98 | checking out an id a second time reports the same result and leaves the log as a single check-out at the later time would |
| `VisitorLog.CheckedOutAll` | scripts/visitors.js:42-53 | the remote update checks out every record with the id, not just the first, and leaves the others unchanged |
| `VisitorLog.LocalChecksOutFirstOnly` | scripts/visitors.js:42-98 | when two records share an id, the local check-out leaves the later one `In` while the remote one checks out both |
| `VisitorLog.VisitorManager.constructor` | scripts/visitors.js:3-5 | the local slot holds the stored log, or `[]` if it was absent |
| `VisitorLog.VisitorManager.LocalLogs` | scripts/visitors.js:101-103 | an absent slot reads as the empty log, a present one as its content |
| `VisitorLog.VisitorManager.Init` | scripts/visitors.js:7-12 | the slot is set to `[]` only when absent, and the log read back is unchanged |
| `VisitorLog.VisitorManager.SaveToLocalStorage` | scripts/visitors.js:82-86 | the local log becomes the old log with the record appended |
| `VisitorLog.VisitorManager.LogVisitor` | scripts/visitors.js:14-37 | with nobody signed in nothing is written; otherwise the record (status `In`, no exit time, logged by the current user) is appended to the local log whether or not the remote write succeeds, appended remotely when reachable, and returned |
| `VisitorLog.VisitorManager.CheckoutLocalVisitor` | scripts/visitors.js:88-99 | the answer and the new log are those of `CheckedOut`; when nothing is found the slot is not rewritten |
| `VisitorLog.VisitorManager.CheckoutVisitor` | scripts/visitors.js:39-60 | the answer depends on the local check-out alone; the remote store gets `CheckedOutAll` when reachable and is unchanged otherwise |
| `VisitorLog.VisitorManager.LoadVisitors` | scripts/visitors.js:62-80 | the remote list when it is reachable and non-empty, otherwise the local log, never a merge |
| `VisitorLog.VisitorManager.RenderLogs` | scripts/visitors.js:105-118 | the rows are `View` of what `LoadVisitors` returns |

## Left out

- scripts/app.js is not part of this model. It holds DOM event binding, form reads, alerts and timers. Its guard that a visitor's name, phone and host are non-empty is a convention of the caller. `LogVisitor` does not require it, because the ledger accepts any record.
- The database client is not modelled. Firebase path rules are not modelled either: a key containing `/`, `.`, `#`, `$`, `[` or `]`, or an empty username, would address another node or throw. The model treats every username as a plain key.
- A remote failure is one flag per operation. A failure between the read and the write of the same operation has the same observable effect as one at the read, so the flag covers both.
- The push keys of the remote `visitors` collection are left out. The collection is a sequence in push order, which is the order the database returns them in.
- JSON serialisation and local storage are left out. Both slots are plain fields, and a JSON round trip of these string records is the identity.
- Clock readings are passed in. The separate clock calls inside one `checkoutVisitor` are read as one value, `exitTime`.
- `toLowerCase` is modelled on ASCII letters only. Password length is counted in Unicode scalar values, whereas JavaScript counts UTF-16 code units, so the two differ for characters outside the Basic Multilingual Plane.
- Async scheduling is left out. `init` starts `initializeDefaultAdmin` without awaiting it, and the model runs it to completion first. The two touch disjoint state.
- Console logging, the table rows and the checkout buttons of `renderLogs` (scripts/visitors.js:119-162) are left out.
- `logVisitor` reads `auth.currentUser.username`, which the model takes as an `Option<string>`. A session record without a `username` field is not modelled.
- `VisitorView.SortNewestFirst`: does not state that the sort is stable (equal ids keep their input order), although the insertion it uses is.
- `Authentication.Auth.GetAllUsers`: does not state the order of the list. The database visits children in key order; the model only records the visiting order as `order`.
- Ids are integers. `b.id - a.id` with non-numeric ids is not modelled.
