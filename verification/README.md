# Blog handlers: a Dafny model of their decision logic

This project models the five Blog resource handlers of a small REST API:
list, detail, create, update and delete (controllers/BlogController.js).
It also models the stored Blog document (models/BlogModal.js). Each handler
is a short check-then-act procedure over a collection of documents keyed by
id. Here each one is a pure function from the store and the request inputs
to a `Step`: the response (`Outcome`) and the store afterwards.

- `BlogModel` (blog_model.dfy) defines the stored `Blog` document. It holds a
  title, a description, the owning user, and `createdAt`/`updatedAt`. It also
  defines the `Store`: a `map<Id, Blog>` plus a clock holding the latest time a
  successful create or update stamped (delete and failed writes leave it alone).
  It defines the client projection `BlogData` (`Project`) and the schema's
  `required` test.
- `Responses` (responses.dfy) defines the response taxonomy. The outcomes are
  success with data, success with no payload, validation error (failed fields
  or "Invalid ID"), not found, unauthorized, and server error. It also defines
  `Gate`, the type each handler's checks are chained with using `:-`. The
  first check that fails decides the response.
- `BlogController` (blog_controller.dfy) defines the handlers. `List` is a
  method that builds a newest-first listing by insertion. The other four are
  functions.
- `BlogProperties` (blog_properties.dfy) relates the handlers to one another:
  reads after writes, and the id-check asymmetry between Detail and
  Update/Delete. It also covers the listing order of successive creates and
  the walk-through of one record's life.
- `BlogTraces` (blog_traces.dfy) applies sequences of write requests from
  several users. It proves that a non-owner never changes a record, and that
  every record is owned by the user whose create made it.

Collaborators are parameters:
- The id-format test, the field-emptiness validator, and the trim-and-escape
  sanitiser are the functions `validId`, `fieldOk` and `clean` of an `Env`.
- The authenticated identity from the token middleware is the `user` argument.
- The id the persistence layer generates for a new document is `newId`.
- A failing persistence write is `writeOk == false`.
- The wall-clock time at which a create or update is saved is `now`. It is
  never earlier than the store's clock, and two writes may share a time.

Behaviour that follows the code rather than a first reading of it:
- **List returns whole records.** It returns the stored documents as they are,
  owner and timestamps included, not the `BlogData` projection.
- **Update builds its response locally.** The response comes from the object
  built from the request. It carries the requested id and the new fields but
  no creation time (`createdAt` is `None`). Detail afterwards shows the stored
  creation time (`UpdateThenDetail`).
- **Detail never reports an error.** A malformed id and a missing record both
  give success with an empty object. Update and Delete report "Invalid ID" and
  not-found for the same inputs.
- **`required` is checked only on create.** The schema marks title and
  description as required, and Mongoose's `required` rejects an empty string
  when a new document is saved. So a create whose sanitised title is empty
  fails in the save callback and gets the server-error response. An update
  goes through `findByIdAndUpdate`, which does not run the schema validators
  by default. It stores the empty field (`UpdateSkipsSchema`).
- A create whose generated id is already taken fails its save (duplicate key).
  It answers with a server error and stores nothing.
- So a stored title or description is not always non-empty after trimming.
  The model does not claim that invariant.

## Model

| member | source | states |
|---|---|---|
| `BlogController.FailedFields` | controllers/BlogController.js:79-80 | A field is reported in the validation errors exactly when its validator fails; title comes before description |
| `BlogController.List` | controllers/BlogController.js:26-30 | The answer is success with every stored document exactly once, contents as stored, ordered newest first; the store is unchanged |
| `BlogController.Insert` | controllers/BlogController.js:26 | Adding a document to a newest-first listing keeps it newest first, adds exactly that document, and keeps ids distinct |
| `BlogController.Detail` | controllers/BlogController.js:50-61 | Always success; carries the record's projection exactly when the id is well-formed and present, otherwise an empty object; never changes the store |
| `BlogController.Create` | controllers/BlogController.js:84-101 | Validation error exactly when a field fails, carrying exactly the failed fields in declaration order; otherwise success exactly when the save succeeds (write ok, id unused, sanitised fields non-empty). Success adds one record under the new id, owned by the requester, with sanitised fields and both timestamps at the save time, and leaves all other records alone; any failure leaves the store unchanged |
| `BlogController.Update` | controllers/BlogController.js:133-156 | The first failing check decides: field validation (carrying exactly the failed fields in declaration order), then "Invalid ID", then not found, then unauthorized for a non-owner. Every failure leaves the store unchanged. Success changes only that record's title, description and update time (set to the write time), keeps its owner and creation time, and answers with the requested id and new fields |
| `BlogController.Delete` | controllers/BlogController.js:179-198 | The first failing check decides: "Invalid ID", then not found, then unauthorized for a non-owner; failures leave the store unchanged; success removes exactly that record and carries no payload |
| `BlogProperties.ProjectionShowsExactly` | controllers/BlogController.js:10-15 | Two records have the same projection exactly when their title, description and creation time agree; the projection carries the given id |
| `BlogProperties.CreatedRecordMeetsSchema` | models/BlogModal.js:6-8 | A created record has a non-empty title and description and is owned by the requester |
| `BlogProperties.UpdateSkipsSchema` | models/BlogModal.js:6-7 | An owner's update whose sanitised title is empty succeeds and stores the empty title, while a create with the same fields fails |
| `BlogProperties.MalformedIdAsymmetry` | controllers/BlogController.js:50-51 | For a malformed id, Detail answers success with an empty object, while Delete, and Update with valid fields, answer "Invalid ID" |
| `BlogProperties.MissingIdAsymmetry` | controllers/BlogController.js:54-59 | For a well-formed id with no record, Detail answers success with an empty object, while Delete, and Update with valid fields, answer not found |
| `BlogProperties.CreateThenDetail` | controllers/BlogController.js:97-100 | Detail of a just-created record returns the same answer Create gave, and the record is owned by its creator |
| `BlogProperties.UpdateThenDetail` | controllers/BlogController.js:149-154 | After an update, Detail shows the new fields with the original creation time, while Update's own answer has no creation time |
| `BlogProperties.DeleteThenGone` | controllers/BlogController.js:192-196 | After a delete, Detail answers with an empty object and a second delete answers not found |
| `BlogProperties.CreateStampsNewest` | models/BlogModal.js:9 | A created record is no older than any record already stored (it may tie with records saved at the same time), and the timestamp invariant is kept |
| `BlogProperties.NewerListedFirst` | controllers/BlogController.js:26 | In a newest-first listing both records appear, and the strictly newer one comes before the older one |
| `BlogProperties.ThreeCreatesListedNewestFirst` | controllers/BlogController.js:26-30 | Records created A, then B, then C at strictly increasing times are listed C, B, A |
| `BlogProperties.TiesListEitherWay` | controllers/BlogController.js:26 | Two records with the same creation time satisfy the listing specification in either order |
| `BlogProperties.LifeOfARecord` | controllers/BlogController.js:145-146 | U1 creates a record. Detail shows its fields. U2's update is unauthorized and leaves the store unchanged. U1's delete succeeds, and Detail then shows an empty object |
| `BlogTraces.WriteRespectsOwnership` | controllers/BlogController.js:144-146 | One write request: an error answer leaves the store unchanged; a record the requester does not own is unchanged; no record changes owner; a new record was created by this request and is owned by the requester |
| `BlogTraces.WritePreservesValid` | models/BlogModal.js:9 | Every write keeps all timestamps no later than the clock (createdAt no later than updatedAt) and never moves the clock back |
| `BlogTraces.RunPreservesValid` | models/BlogModal.js:9 | The timestamp invariant holds after any sequence of write requests |
| `BlogTraces.ForeignRecordSurvives` | controllers/BlogController.js:187-189 | A record survives unchanged any sequence of write requests none of which was made by its owner |
| `BlogTraces.OwnerIsCreator` | controllers/BlogController.js:85-90 | After any sequence of writes, every record either was there before with the same owner, or was made by a create whose requester is its owner |

## Left out

- HTTP routing (routes/blog.js, routes/api.js) is only a verb-to-handler table.
  The token middleware is not part of this model either. Its result is the
  `user` argument, and a missing or invalid token never reaches a handler.
- The response helper's status codes and message strings are reduced to the
  `Outcome` constructors. "Invalid ID" is the one marker kept.
- The id-format test (`ObjectId.isValid`), express-validator's length check
  and its trim/escape sanitisation are library code. They are the abstract
  `Env` functions. Whether the length check sees the trimmed value is folded
  into `fieldOk`. Missing body fields are not distinguished from strings.
- Id casting by the persistence layer is not modelled: store keys are the
  request's id strings, compared exactly. This also means hexadecimal case
  is significant here. The ownership comparison is the string comparison at
  controllers/BlogController.js:145.
- Owner identity: the model stores the requester's identity string as the
  owner and later compares it with the requester's identity string. The code
  stores `req.user` cast to an ObjectId (controllers/BlogController.js:88) and
  compares that ObjectId's string form with the token's `_id` (line 145). The
  two agree only when the token's `_id` is already a lower-case 24-digit
  hexadecimal string, and the model assumes it always is.
- Timestamps: the save time `now` is an argument, never earlier than the
  latest stamp. A clock that goes backwards is not modelled.
- Query, sort and id-generation internals are not modelled. The store is a
  map, the sort is specified as newest first (ties in either order), and the
  generated id is the `newId` argument.
- Server-error paths: failed saves, updates and removals are the `writeOk`
  flag. They answer `ServerError` and leave the store unchanged. Failures of
  the read queries in List, Detail, Update and Delete, and the `try/catch`
  blocks, are not modelled. Those catches cannot see errors raised inside the
  asynchronous callbacks.
- Concurrent requests and last-write-wins races belong to the database. Here
  requests are applied one at a time.
- The document version key and other Mongoose metadata on the documents List
  returns are not modelled.
