# Membership and user registry handlers, modelled in Dafny

This project models the two groups of HTTP handlers of the `zccore`
backend that check a request and then change the document store:

- **Membership** (`organizations/user.go`): `GetMembers` lists the member
  records of an organization after confirming the organization exists;
  `CreateMember` resolves a user and an organization, refuses a second
  member with the same email in the same organization, and inserts one
  member record `{org_id, email}` whose email is copied from the user.
- **User registry** (`user/user.go`): `Create` registers a user whose
  email is valid and not yet used; `DeleteUser` deletes by id and fails
  when nothing was deleted; `FindUserByID` looks a user up; `UpdateUser`
  sets the non-empty fields of an update body on one user.

The store is held in memory by the class `Store.Database`: `users` maps an
object id to a user document (field name to value), `organizations` is the
set of organization ids, and `members` is the `members` collection in
insertion order. Each handler is a method that takes the database and
modifies only the collection it writes (`db`members` or `db`users`), or a
function that only reads it. Every handler answers with a `Reply`: a
success with its data, an error with the HTTP status the code uses (400,
404, 422 or 500) and the error it carries, or no answer at all.

Identifiers are parsed by `ObjectIds.ParseId`: exactly 24 hexadecimal
digits (either case), decoded two digits per byte into a 12-byte object
id. `Hex` gives the lower-case text form back, and the two round trips
between them are proved.

Files: `wrappers.dfy` (Option), `object_ids.dfy` (ids and their text
form), `store.dfy` (documents, member records, replies, the database, the
store's queries and the uniqueness invariants), `organizations.dfy` (the
membership handlers), `users.dfy` (the user registry handlers).

Properties proved, beyond each handler's full case-by-case outcome:

- no failing request writes anything, and a successful `CreateMember`
  appends exactly one record and touches neither `users` nor
  `organizations`;
- at most one member record per (organization, email) is preserved by
  `CreateMember`, and a repeated identical request never adds a second
  record (`CreateMemberTwice`);
- email uniqueness across `users` is preserved by `Create` and
  `DeleteUser`, and by `UpdateUser` whenever the update does not set
  `email`;
- the update `UpdateUser` issues targets the parsed id and consists of
  exactly the entries of the body whose value is not the empty text.

Two facts about the code shape the model:

- `GetMembers` filters `org_id` by the id's *text* as given in the path
  (organizations/user.go:36), while `CreateMember` builds the record with
  the *parsed* id (organizations/user.go:93) and its duplicate check
  filters by the parsed id (organizations/user.go:104). The model keeps the
  two as different values (`TextRef`, `OidRef`) and proves nothing about
  listing a member just created.
- `CreateMember` looks the user up before the organization
  (organizations/user.go:68, then :80). Both failures give the same reply,
  so the order is visible only in which lookups are made.

## Model

| member | source | states |
|---|---|---|
| `ObjectIds.ParseId` | organizations/user.go:22-26 | a text is accepted as an id exactly when it has 24 characters, all hexadecimal digits |
| `ObjectIds.DecodeHex` | organizations/user.go:49-53 | hexadecimal decoding succeeds exactly on an even number of hexadecimal digits and gives half as many bytes |
| `ObjectIds.ParseHex` | organizations/user.go:62-66 | parsing the text form of any id gives that id back |
| `ObjectIds.HexOfParsed` | user/user.go:81-86 | the text form of a parsed id is the parsed text with its letters in lower case |
| `Store.FilterByOrg` | organizations/user.go:36 | the records found for an `org_id` key are exactly the records with that key, each as often as `members` holds it |
| `Store.AppendKeepsMembersUnique` | organizations/user.go:104-112 | inserting a record the duplicate check did not find keeps at most one member per (organization, email) |
| `Store.InsertKeepsEmailsUnique` | user/user.go:33-44 | inserting a user whose email the lookup did not find, under an unused id, keeps emails unique |
| `Store.RemoveKeepsEmailsUnique` | user/user.go:60 | deleting a user keeps emails unique |
| `Store.SetKeepsEmailsUnique` | user/user.go:135 | setting fields other than `email` on one user keeps emails unique |
| `Organizations.GetMembers` | organizations/user.go:16-43 | a malformed id gives 400 "invalid id", an unknown organization 400 "operation failed" with `members` not read; otherwise success with exactly the records whose `org_id` is the id's text, store unchanged |
| `Organizations.CreateMember` | organizations/user.go:45-119 | checks in the code's order (org id 400, body 422, user id 400, user 400, org 400, duplicate 400); every failure leaves `members` unchanged; success appends exactly `{org_id: parsed org id, email: user's email}`; `users` and `organizations` never change; member uniqueness is preserved |
| `Organizations.CreateMemberTwice` | organizations/user.go:104-112 | when a request succeeds, the same request again is refused with 400 "operation failed" and adds nothing; a failed request fails the same way again |
| `Users.UserDocument` | user/user.go:40-42 | the stored document has the registration's email under `email`, the supplied time under `created_at`, and the body's other fields |
| `Users.Create` | user/user.go:16-52 | unparsable body 422; invalid email 400; email in use 400 "operation failed"; id in use 500; each leaves `users` unchanged; success adds exactly one user under the assigned id; email uniqueness is preserved |
| `Users.DeleteUser` | user/user.go:54-72 | succeeds exactly when the id names a user, which is then removed with every other user unchanged; otherwise 500 "operation failed" and `users` unchanged; email uniqueness is preserved |
| `Users.FindUserByID` | user/user.go:75-95 | a malformed id gives 400 before any lookup; an unknown id gives 500 with the not-found error; otherwise the user's document |
| `Users.CollectUpdateFields` | user/user.go:125-130 | the update holds exactly the body's entries whose value is not the empty text, with their values |
| `Users.NoFieldsToSet` | user/user.go:131-133 | the update is empty exactly when every value in the body is the empty text |
| `Users.UpdateUser` | user/user.go:97-145 | malformed id 400 before any lookup; unknown user 404; unparsable body 422; empty update 400 with nothing issued; otherwise the update targets the parsed id with exactly the non-empty fields and sets them on that user alone |

## Left out

- HTTP plumbing: response headers, route variables and the success and
  error envelopes are reduced to `Reply`; the texts of success messages are
  not modelled.
- Request bodies are given as parsed values (`Option`, `None` when parsing
  fails); JSON parsing, `StructToMap` and `mapstructure.Decode` are
  foreign calls. `StructToMap` is taken as total, so the error paths at
  organizations/user.go:97-101 and user/user.go:121-123 (the latter replies
  without returning) do not arise in the model.
- `StructToMap` is not part of this model and is assumed to keep field
  values as they are: the member record inserted at
  organizations/user.go:112 keeps `org_id` an object id, and a user's
  `created_at` stays a time. The duplicate refusal of `CreateMember`,
  `CreateMemberTwice`, and a created member not matching the text filter
  of `GetMembers` rest on this; were `org_id` stored as its hexadecimal
  text, the check at organizations/user.go:104 would never find an earlier
  record, and `GetMembers` would list the member when the path text is
  lower case.
- A user document's email is read as its `email` text, or the empty text
  when there is none, as decoding into the user struct leaves it. The
  user struct is not part of this model; the creation time is stored under
  the field name `created_at`.
- `utils.IsValidEmail` is not part of this model: it is a parameter of
  `Create`. `time.Now()` is the parameter `now`, and the id the store
  assigns to a new user is the parameter `assignedId`.
- The `utils` store helpers are not part of this model. A find-one is taken
  to answer no document with the store's not-found error when nothing
  matches; `DeleteOneMongoDoc` and `UpdateOneMongoDbDoc` are taken to parse
  the id text and act on that id, so a malformed id deletes nothing.
- Users.UpdateUser: because a lookup that finds nothing always reports an
  error, the branch where the lookup returns no document and no error
  (user/user.go:113, 143, which sends no reply) is kept but cannot be
  reached.
- Store failures other than a taken id on insert: the error replies at
  organizations/user.go:37-40 and 112-116, user/user.go:62-65 and
  135-139, and user/user.go:89-92 for errors other than not-found, need a
  failing store and are not modelled.
- Member records carry no store-assigned id, so `CreateMember` replies with
  the record it inserted instead of the store's insert result
  (organizations/user.go:118).
- Users.Create replies with the id the new user is stored under, not the
  store's insert result (user/user.go:51).
- Users.UpdateUser replies with the update it issued (target id and
  fields), not the store's update result (user/user.go:140).
- Users.FindUserByID: one error, `InvalidHex`, stands for both errors the
  id parser can return (a wrong length, or a bad digit at the right
  length); the handler replies with the text of whichever it got
  (user/user.go:84), which the model does not distinguish.
- Concurrency: two `CreateMember` requests interleaved between the
  duplicate check and the insert can both insert; the model proves
  uniqueness for requests run one after another only.
- Organization documents are reduced to their ids; their attributes are
  not read by the handlers. Logging is left out.
- `UpdateUser` does not check that a new `email` is unused; email
  uniqueness is proved for updates that do not set `email` only.
