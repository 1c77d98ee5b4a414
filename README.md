# Real-estate listings API: a verified model of its request handlers

The API keeps two collections in a document store. `property` holds listing
documents by id; each has an `ownerId`. `user` holds a record by uid: email,
name, photo URL and an ordered `properties` list of listing ids. Six HTTP
handlers read and write these collections after verifying the caller's
identity token. This model treats the collections as two maps. A verified
token is a value that is either a failure or the caller's `(uid, email,
admin)`. Each handler becomes a deterministic transition that returns a
status code.

- `Documents.dfy`: JSON values, documents, user records, the two tables, the
  decoded token, and the three document operations the handlers use: spread
  plus `id`, shallow-merge update, and the `ownerId === uid` test.
- `Lists.dfy`: the array operations on a user's id list. These are
  `indexOf`, `splice(index, 1)`, and a reference definition `DropFirst` that
  they are proved equal to.
- `Handlers.dfy`: the six handlers as pure transitions from the tables
  before a request to the status and tables after it. Each contract states
  every status as an if-and-only-if of the inputs and states the new
  contents of both tables.
- `Server.dfy`: class `Store`, whose `property` and `user` fields the four
  state-changing handlers update step by step, in the source's order. Each
  method is proved to produce exactly its transition in `Handlers`.
  `Session` replays a refused and an accepted register, then a create, a
  foreign update and a delete, on an empty store.
- `Consistency.dfy`: the link between the two tables. Every id in a user's
  list names an existing property owned by that user, and no list repeats
  an id. The file proves which handlers keep this. It also proves that an
  admin deleting someone else's property breaks it (see Findings).

On four points the code does something a reader may not expect; the model
follows the code:

- GET of a missing document answers 200 with only `{id}`. Spreading the
  `undefined` that `data()` returns for it adds no field (server.js:23-27).
- Create with a rejected token answers 500. The `!decodedToken` branch at
  server.js:161-162 is unreachable, because a failed verification throws
  into the catch block at server.js:191-192.
- createUser with a rejected token answers 403 from its outer catch block
  (server.js:232-233). Its 401 branch at server.js:202-203 is unreachable
  for the same reason.
- Delete edits the list of the requester (`doc(userId)` at server.js:115),
  not the list of the property's owner.

Inputs the handlers take from outside are parameters:

- the decoded token (`Auth`), whose email may be absent;
- the profile `getUser` reports (`Profile`), whose display name and photo
  URL may be absent;
- the id the store assigns in `add`. It is `freshId`, required to be absent
  from `property`.

The create handler passes each destructured form field to `add`. A field
missing from the body is `undefined`, and the store refuses such a document.
The model therefore answers 500 and writes nothing when a form field is
absent. The createUser handler does not await its `set`, but the store
checks the record before the call returns: an absent email, name or photo
URL makes `set` throw into the inner catch block, which answers 500 with
nothing written.

## Model

| member | source | states |
|---|---|---|
| `Documents.OwnedBy` | server.js:113 | the owner test (`===` here, `!==` at server.js:45) is strict equality: it holds exactly when `ownerId` is stored, is a string, and is that uid; no other stored value matches |
| `Documents.Fields` | server.js:22-23 | `snapshot.data()` of an existing document is exactly its stored fields; of a missing one it has no field at all |
| `Documents.WithId` | server.js:25-28 | `{...d, id}` keeps every field of `d` except `id`, adds `id`, and `id` is the given id |
| `Documents.Merge` | server.js:51 | `update` is a shallow merge: keys are the union, submitted fields win, untouched fields keep their value |
| `Lists.IndexOf` | server.js:120 | `indexOf` gives -1 exactly when the id is absent, otherwise the position of its first occurrence |
| `Lists.Splice` | server.js:122 | `splice(i, 1)` removes element `i`, keeps the elements before it in place and shifts the later ones down by one |
| `Lists.DropFirst` | server.js:120-123 | removing the first occurrence leaves an absent id's list unchanged, shortens it by one otherwise, and removes exactly one copy from the multiset |
| `Lists.SpliceIndexOf` | server.js:120-122 | the guarded `indexOf`/`splice`: a list without the id is left as it is, a list with it loses exactly one element |
| `Lists.IndexOfThenSplice` | server.js:120-123 | `indexOf` followed by a guarded `splice` equals removing the first occurrence, for every list |
| `Lists.SpliceNoDup` | server.js:122 | splicing one position out of a duplicate-free list keeps it duplicate-free and keeps every element except the removed one |
| `Lists.DropFirstNoDup` | server.js:120-123 | on a list without duplicates, the removal leaves no copy of the id, no duplicate, and every other id |
| `Lists.AppendNoDup` | server.js:182 | appending an id that is not yet listed keeps the list duplicate-free |
| `Handlers.GetProperty` | server.js:19-32 | GET answers the stored fields plus `id`, and a missing document gives exactly `{id}` |
| `Handlers.Entries` | server.js:73-86 | the list has one entry per id, in the list's order, each being what GET answers for that id |
| `Handlers.ListProperties` | server.js:61-96 | 200 exactly when the token verifies and the caller has a user record, with the entries of their list; otherwise 403 and nothing |
| `Handlers.UpdateProperty` | server.js:35-58 | 403 exactly for a verified non-owner of an existing document; 200 exactly for the owner with a body; the merge forces `ownerId` to the caller; every non-200 writes nothing; nothing else changes |
| `Handlers.DeleteProperty` | server.js:101-136 | 500 exactly on a rejected token, 404 exactly on a missing document, 401 exactly for a caller neither owner nor admin; on 200 the document is gone and only the caller's list loses its first copy of the id |
| `Handlers.NewProperty` | server.js:164-178 | the added document has exactly the eleven form fields and `ownerId`; the form fields are copied from the body; the owner is the caller whatever the body holds |
| `Handlers.CreateProperty` | server.js:141-194 | 201 exactly when the token verifies, the form is complete and the caller has a user record; then the caller's list is the old list plus the new id. The document is stored even when the user record is missing (500) |
| `Handlers.CreateUser` | server.js:197-236 | 403 exactly on a rejected token; 200 exactly on a verified token with an email, a display name and a photo URL; 500 when any of the three is absent, because `set` refuses the record; only on 200 is the caller's record replaced by the three values and an empty list, and echoed; the `property` table is untouched |
| `Server.SpliceOut` | server.js:119-122 | the step-by-step `indexOf` and `splice` report whether the id was listed, and leave the list that `SpliceIndexOf` gives |
| `Server.Store.Update` | server.js:35-58 | the read-check-merge steps leave the status and tables that `UpdateProperty` gives |
| `Server.Store.Delete` | server.js:101-136 | the read-check-delete-splice steps leave the status and tables that `DeleteProperty` gives |
| `Server.Store.Create` | server.js:141-194 | the add-then-read-then-append steps leave the status and tables that `CreateProperty` gives, including the partial write |
| `Server.Store.CreateUser` | server.js:197-236 | the refused or accepted `set` of the caller's record leaves the status, echo and tables that `CreateUser` gives |
| `Consistency.ListShowsOwnDocuments` | server.js:68-86 | on consistent tables every listed entry is owned by the caller and carries all its stored fields |
| `Consistency.UpdateKeepsConsistent` | server.js:45-51 | update keeps every list naming existing documents owned by the lister |
| `Consistency.CreateKeepsConsistent` | server.js:164-187 | create keeps the tables consistent, including when it leaves the document without a list entry |
| `Consistency.CreateUserKeepsConsistent` | server.js:214-219 | resetting a user's list to empty keeps the tables consistent |
| `Consistency.OwnerDeleteKeepsConsistent` | server.js:111-124 | a delete by the property's owner keeps the tables consistent |
| `Consistency.AdminDeleteLeavesStaleEntry` | server.js:113-123 | an admin deleting another user's listed property succeeds, yet the owner's list still names the deleted id, so the tables are no longer consistent |
| `Consistency.StoredOwner` | server.js:112-113 | reads the stored `ownerId` as a uid, which is the one uid the document is owned by |
| `Consistency.DeleteFromOwner` | server.js:101-136 | corrected delete: the same statuses under the same conditions; on 200 the document is gone and no user record is added or removed; any other status writes nothing |
| `Consistency.DeleteFromOwnerEditsOwnerList` | server.js:113-124 | on a corrected delete, the owner's list loses its first copy of the id and every other user's record is unchanged |
| `Consistency.DeleteFromOwnerKeepsConsistent` | server.js:111-124 | the corrected delete keeps the tables consistent whoever deletes |
| `Consistency.DeleteTwiceNotFound` | server.js:109-131 | after a successful delete, deleting the same id again answers 404 |

## Findings

| source | as written | input that shows it | evidently intended | confidence | as-written member | corrected member |
|---|---|---|---|---|---|---|
| server.js:115 | after an authorized delete, the id is removed from the list of the caller (`doc(userId)`) | an admin `a` deletes property `p` owned by `o`, whose list is `[p]`: `p` is deleted, `o`'s list stays `[p]` | remove the id from the owner's list (the comment at server.js:98 and the owner-or-admin rule at line 113) | medium, not executed | `Consistency.AdminDeleteLeavesStaleEntry` | `Consistency.DeleteFromOwner` |

`Server.Store.Delete` keeps the behaviour as written, because it models the
deployed handler. The corrected transition is stated and proved beside it.

## Left out

- Token verification and `getUser` internals: the decoded token and the profile are inputs, and a failing `getUser` (which would answer 403) is not modelled.
- The store's own failures (network, permissions, quota) are not modelled: every read and write reaches the store.
- The store refuses an `undefined` value, and the model follows it in create and createUser. Its other refusals are not modelled:
  - a nested array in a document (`images: [[...]]`): create would answer 500 and update 400, where the model answers 201 and 200;
  - an empty id, or one that makes an odd-length path such as one containing a single `/`: `doc()` throws, so GET and DELETE would answer 500 where the model answers 200 with `{id}` and 404, and update and create would fail likewise;
  - an empty field name in an update body: the store refuses it and update would answer 400, where the model answers 200.
- Store id generation in `add`: the new id is a parameter that must be absent from `property`.
- HTTP plumbing (routing, CORS, JSON parsing, `listen`), response text and raw error-object bodies: handlers return status codes and data bodies only.
- Concurrency: the `Promise.all` fan-out in the list handler is modelled sequentially, since only the order of the output matters. Races between requests and the lack of atomicity across the two writes are not modelled. Create's partial write is modelled.
- The unawaited `set` in createUser: its synchronous refusal of an absent field is modelled; a later failure of the write itself is not, because the handler has already answered.
- Floating-point numbers and nested objects in documents: values are null, booleans, integers, strings and arrays.
- Dotted keys in an update body, which the store reads as field paths: field names are taken literally.
- Request ids that are not strings (a missing `propertyId`), and a user record without a `properties` array: these are not modelled.
- Logging and the commented-out custom-claims route.
