# Document store and sharing — a Dafny model

This project models the backend core of a collaborative-document web
application: the document collection and the per-user document index
(`UserFiles`), and the route handlers that create, list, read, update and share
documents. Each handler is a pure transition over a `State`. A `State` holds the
documents keyed by their public `documentId` and one index entry per user. The
entry lists the documents the user created (`filesCreated`) and those shared
with them (`filesShared`).

Modules, leaves first:

- `Wrappers` (`wrappers.dfy`): `Option` and `Result`.
- `Seqs` (`seqs.dfy`): `Without`, which filters one id out of a list the way
  the share handler does. Also the duplicate-freedom and disjointness
  predicates.
- `DocumentSchema` (`document.dfy`): the `Document` record, the schema's
  defaults and required-field validation, and the three access levels.
- `UserFilesIndex` (`userfiles.dfy`): the per-user index and its two updates:
  the upserting push into `filesCreated`, and the push into `filesShared`
  that happens only when the ref is absent.
- `DocumentRoutes` (`documents.dfy`): the handlers `Create`, `RecentFiles`,
  `SharedFiles`, `Get`, `Update` and `Share`. A mutating handler returns an
  `Outcome`: the next state and a reply that is either a value or an `Error`.
  Every error path returns the state it was given.
- `StoreInvariants` (`invariants.dfy`): `Consistent`, the cross-collection
  invariant, and proofs that every handler preserves it. `Consistent` says:
  - every record is stored under its own `documentId`;
  - database ids are unique;
  - access lists are duplicate-free and pairwise disjoint;
  - a ref is on a user's created (shared) list exactly when that user authored
    (holds access to) that document.
- `SharingLaws` (`sharing.dfy`): laws about successive requests, such as
  "the last share wins" and "create, then get".

Inputs the handlers cannot compute are parameters:
- the authenticated caller;
- the freshly generated `documentId` and database `_id`;
- the current instant, as an abstract `nat`;
- the user directory from email to user id.

Behaviour the handlers do not have, and the model therefore does not add:

- The share handler does not stop an author from sharing a document with
  themself, so an author may appear in their own access lists.
- The update handler checks no access: any caller may update any document.
- There is no revoke, delete, access-check or user-listing handler, and the
  share handler sends no notification.
- Access lists are ordered arrays, not sets. Duplicate-freedom and
  disjointness are proved invariants, not type facts.
- Create takes no title or metadata from the request. It always stores the
  title "Untitled Document" and empty content, and leaves metadata at its
  default.

## Model

| member | source | states |
|---|---|---|
| Seqs.Without | Backend/routes/documents.js:188-190 | Removing a user from an access list keeps every other entry with its multiplicity, and the removed user no longer occurs. A list without that user comes back unchanged. |
| Seqs.WithoutAppend | Backend/routes/documents.js:188-190 | Filtering a concatenation is filtering each part, in order. So the filter keeps the relative order of the remaining ids. |
| DocumentSchema.NewDocument | Backend/models/Document.js:15-50 | Fields the caller leaves out take the schema defaults: title "Untitled Document", content "" and metadata {}. Both timestamps are the construction instant. All three access lists start empty. The record passes validation exactly when `documentId` is non-empty. |
| DocumentSchema.ParseLevel | Backend/routes/documents.js:193-205 | Only "editor", "reviewer" and "reader" name a level, and the level read back has the requested name. Any other string names no level. |
| DocumentSchema.ParseLevelName | Backend/routes/documents.js:193-202 | Each of the three levels, spelled as a request spells it, reads back as itself. |
| UserFilesIndex.EntryOf | Backend/routes/documents.js:211-215 | A user's existing index entry is used as is. A user without one gets a fresh entry with both lists empty. |
| UserFilesIndex.PushCreated | Backend/routes/documents.js:31-38 | The creation upsert appends the ref to the creator's created list, making the entry if it is missing. The shared list and every other user's entry are unchanged. |
| UserFilesIndex.AddShared | Backend/routes/documents.js:211-220 | Afterwards the grantee's shared list holds the ref and nothing new besides it. A missing ref is appended at the end. A ref already present leaves the whole index unchanged. A duplicate-free list stays duplicate-free. No other entry changes. |
| DocumentRoutes.Create | Backend/routes/documents.js:11-51 | A request without a user fails as unauthenticated. Otherwise creation succeeds exactly when the save is accepted: non-empty, unused `documentId` and unused `_id`. On success the new record has the caller as author, the default title, empty content, empty access lists, no template and both timestamps equal to now. Existing documents are untouched. The ref is appended to the caller's created list, the entry belongs to the caller, and no other index entry changes. With a caller present, every failure is SaveRejected. Every failure leaves the state unchanged. |
| DocumentRoutes.RecentFiles | Backend/routes/documents.js:54-65 | The recent listing is the caller's created list, or nothing when the caller has no index entry. |
| DocumentRoutes.SharedFiles | Backend/routes/documents.js:83-101 | The shared listing is the caller's shared list, or nothing when the caller has no index entry. |
| DocumentRoutes.Get | Backend/routes/documents.js:110-131 | A lookup fails with DocumentNotFound exactly when no document has that `documentId`. Otherwise it returns the stored record, whose `author` is the author's id. |
| DocumentRoutes.Update | Backend/routes/documents.js:134-158 | An unknown `documentId` gives DocumentNotFound and changes nothing. Otherwise title, content and `lastModified` take the new values. Author, ids, access lists, creation time, template and metadata stay as they were. No other document and no index entry changes. The reply is the updated record. |
| DocumentRoutes.Strip | Backend/routes/documents.js:187-190 | Each access list loses the grantee, in order, and nothing else about the document changes. |
| DocumentRoutes.Push | Backend/routes/documents.js:192-202 | The grantee is appended to the list of the requested level only, and nothing else about the document changes. |
| DocumentRoutes.StripPush | Backend/routes/documents.js:187-202 | After stripping and pushing, the grantee occurs exactly once, in the requested level's list, and in no other list. Every other user keeps their place and order in all three lists. |
| DocumentRoutes.Share | Backend/routes/documents.js:161-234 | The errors come in a fixed order. A missing document gives DocumentNotFound. A caller who is not the author gives Forbidden. An unknown email gives UserNotFound. An unknown level gives InvalidAccessLevel. Every error leaves the store and all index entries unchanged. A request that passes all four checks succeeds. On success only the shared document changes, and only in its access lists. The grantee is then in exactly one list, the requested one, exactly once and at its end. Every other user keeps membership and order. The grantee's shared list gains the ref at its end only if it lacked it. The grantee's entry keeps its owner, or is made for the grantee. No other index entry changes. |
| StoreInvariants.GetReturnsRequested | Backend/models/Document.js:5-9 | In a consistent store at most one document carries a given `documentId`. A successful lookup returns a valid record with the requested id. |
| StoreInvariants.RecentIsAuthored | Backend/routes/documents.js:31-38 | In a consistent store a user's created list names exactly the documents that user authored, each once. |
| StoreInvariants.SharedIsGranted | Backend/routes/documents.js:187-220 | In a consistent store a user's shared list names exactly the documents whose access lists contain that user, each once. |
| StoreInvariants.CreatePreservesConsistent | Backend/routes/documents.js:17-38 | Creating a document keeps the store consistent. |
| StoreInvariants.UpdatePreservesConsistent | Backend/routes/documents.js:137-147 | Updating a document keeps the store consistent. |
| StoreInvariants.OthersKeptAccess | Backend/routes/documents.js:188-202 | A share gives or takes no access from anyone but the grantee. |
| StoreInvariants.ShareKeepsAccessConsistent | Backend/routes/documents.js:187-202 | Sharing keeps each access list duplicate-free and the three lists pairwise disjoint. |
| StoreInvariants.SharePreservesConsistent | Backend/routes/documents.js:187-220 | Sharing keeps the store consistent. This includes the two-way agreement between the access lists and every user's shared list. |
| SharingLaws.StripAfterPush | Backend/routes/documents.js:188-202 | Stripping a grantee again after a grant gives back the first strip. |
| SharingLaws.AddSharedTwice | Backend/routes/documents.js:217-220 | Recording the same shared ref twice is the same as recording it once. |
| SharingLaws.ShareLastGrantWins | Backend/routes/documents.js:187-220 | A share that passes every check, followed by a second share of the same document with the same user gives the same reply as the second share alone. When the second level is valid it also gives the same state. So a re-share at another level moves the user and never duplicates them, and sharing twice at the same level is idempotent. |
| SharingLaws.RegrantSameLevel | Backend/routes/documents.js:187-202 | Regranting the level a user already holds, in consistent lists, keeps every list's contents. |
| SharingLaws.ReshareSameLevel | Backend/routes/documents.js:187-202 | When the author re-shares, with a known user, a valid level that user already holds in consistent lists, every access list keeps the same contents. The only change is that the user moves to the end of that level's list. |
| SharingLaws.CreateThenGet | Backend/routes/documents.js:17-38 | A document just created reads back under its id with the caller as author, the default title and empty content, and it is listed among the caller's recent documents. |
| SharingLaws.ShareAsReader | Backend/routes/documents.js:200-220 | Scenario: when the author shares a document at level "reader" with a known user, that user is on the reader list and not the editor list, the document is on the user's shared list, and the content is unchanged. |

## Left out

- HTTP routing, the authentication middleware, status codes and response JSON are not modelled. Statuses become the abstract `Error` kinds. The create handler's own missing-user check is kept as `Unauthenticated`.
- The `/recent` and `/shared` queries are database query semantics. Their `populate`, the sort by `lastModified` and the `limit: 10` are not modelled. `RecentFiles` and `SharedFiles` return the raw ref lists, unsorted and uncapped.
- DocumentRoutes.Get: the response replaces `author` with the author's id. The model stores only the id, so author name and email are not modelled.
- The id generator (`nanoid(16)`) and the clock are not modelled. The new `documentId`, the database `_id` and the current instant are parameters.
- DocumentRoutes.Create: of the catch-all server-error path, only a save rejected for a duplicate or empty id is modelled. Other database failures cannot be seen from this code.
- The document save and the index save are not atomic in the code. Each handler is modelled as one atomic step.
- The share handler compares `document.author.toString()` with `req.user._id`. Whether that succeeds depends on the middleware's id type, which is not part of this model. The comparison is modelled as plain id equality.
- DocumentRoutes.Update: `title` and `content` are always supplied. How the database treats a field missing from the request body is not modelled.
- The user directory (`User.findOne({ email })`) is a parameter map from email to user id. Users are never created or changed here.
- Backend/models/UserFiles.js and Backend/models/User.js are not part of this model. The index entry's shape (`userId`, `filesCreated`, `filesShared`, lists empty by default) comes from how the handlers use it.
- `templateId` is kept in the record, but no handler sets it.
- The frontend navigation bar and the build configuration are presentation and tooling. They are not modelled.
