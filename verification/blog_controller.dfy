/**
 The decision logic of the five Blog handlers (controllers/BlogController.js).

 Each handler takes the store and the request's inputs and yields a `Step`:
 the response and the store after the request. The authenticated identity is
 the `user` argument (what the token middleware attaches). The library
 collaborators the handlers rely on are the functions of an `Env`. The
 callback errors of the persistence writes are the `writeOk` argument.
 */
module BlogController {
  import opened BlogModel
  import opened Responses

  /**
   The collaborators whose behaviour is not part of this code:
   `validId` is the id-format test of the persistence layer,
   `fieldOk` is the non-emptiness test express-validator applies to a field,
   `clean` is the trim and HTML-escape sanitisation applied to a field.
   */
  datatype Env = Env(validId: string -> bool, fieldOk: string -> bool, clean: string -> string)

  /** A handler's response, and the store once the request is done. */
  datatype Step = Step(out: Outcome, after: Store)

  /** The fields whose validation failed, in the order the validators are declared. */
  function FailedFields(env: Env, title: string, description: string): (errs: seq<Field>)
    ensures Title in errs <==> !env.fieldOk(title)
    ensures Description in errs <==> !env.fieldOk(description)
    ensures |errs| <= 2
    ensures |errs| == 2 ==> errs == [Title, Description]
  {
    (if env.fieldOk(title) then [] else [Title])
      + (if env.fieldOk(description) then [] else [Description])
  }

  /** The validation result of a request body is empty. */
  predicate FieldsOk(env: Env, title: string, description: string)
  {
    env.fieldOk(title) && env.fieldOk(description)
  }

  /** Finishes a handler: a halted pipeline answers without touching the store. */
  function Settle(st: Store, g: Gate<Step>): Step
  {
    match g
    case Pass(s) => s
    case Halt(out) => Step(out, st)
  }

  /** The stored document with this id, or a not-found answer. */
  function Find(st: Store, id: Id): Gate<Blog>
  {
    if id in st.blogs then Pass(st.blogs[id]) else Halt(NotFound)
  }

  /** Where a document goes in a newest-first listing: after every strictly newer one. */
  function Slot(docs: seq<Entry>, e: Entry): (p: nat)
    ensures p <= |docs|
    ensures forall i :: 0 <= i < p ==> docs[i].blog.createdAt > e.blog.createdAt
    ensures p < |docs| ==> docs[p].blog.createdAt <= e.blog.createdAt
    decreases |docs|
  {
    if |docs| == 0 || docs[0].blog.createdAt <= e.blog.createdAt then 0
    else 1 + Slot(docs[1..], e)
  }

  /** Adds a document to a newest-first listing, keeping it newest first. */
  function Insert(docs: seq<Entry>, e: Entry): (r: seq<Entry>)
    requires NewestFirst(docs)
    ensures NewestFirst(r)
    ensures forall x :: x in r <==> x in docs || x == e
    ensures IdsOf(r) == IdsOf(docs) + {e.id}
    ensures DistinctIds(docs) && e.id !in IdsOf(docs) ==> DistinctIds(r)
  {
    var p := Slot(docs, e);
    var r := docs[..p] + [e] + docs[p..];
    SpliceMembers(docs, p, e);
    SpliceOrdered(docs, p, e);
    SpliceDistinct(docs, p, e);
    r
  }

  /** Splicing a document into a listing adds exactly that document. */
  lemma SpliceMembers(docs: seq<Entry>, p: nat, e: Entry)
    requires p <= |docs|
    ensures forall x :: x in docs[..p] + [e] + docs[p..] <==> x in docs || x == e
  {
  }

  /** Splicing a document in at its slot keeps a listing newest first. */
  lemma SpliceOrdered(docs: seq<Entry>, p: nat, e: Entry)
    requires p <= |docs|
    requires NewestFirst(docs)
    requires forall i :: 0 <= i < p ==> docs[i].blog.createdAt > e.blog.createdAt
    requires p < |docs| ==> docs[p].blog.createdAt <= e.blog.createdAt
    ensures NewestFirst(docs[..p] + [e] + docs[p..])
  {
  }

  /** Splicing in a document with an unused id keeps the ids distinct. */
  lemma SpliceDistinct(docs: seq<Entry>, p: nat, e: Entry)
    requires p <= |docs|
    ensures DistinctIds(docs) && e.id !in IdsOf(docs) ==> DistinctIds(docs[..p] + [e] + docs[p..])
  {
  }

  /**
   Lists every stored document, newest first. The documents are returned
   whole (owner and timestamps included), not as projections. An empty store
   lists nothing.
   */
  method List(st: Store) returns (r: Step)
    ensures r.after == st
    ensures r.out.SuccessData? && r.out.payload.Records?
    ensures Listing(r.out.payload.docs, st.blogs)
    ensures NewestFirst(r.out.payload.docs)
  {
    var left := st.blogs.Keys;
    var docs: seq<Entry> := [];
    while left != {}
      invariant left <= st.blogs.Keys
      invariant IdsOf(docs) == st.blogs.Keys - left
      invariant forall x :: x in docs ==> x.id in st.blogs && st.blogs[x.id] == x.blog
      invariant DistinctIds(docs)
      invariant NewestFirst(docs)
      decreases left
    {
      var k :| k in left;
      docs := Insert(docs, Entry(k, st.blogs[k]));
      left := left - {k};
    }
    r := Step(SuccessData(Records(docs)), st);
  }

  /**
   The projection of the document with this id. A malformed id and a missing
   document are both answered with a success carrying an empty object.
   */
  function Detail(env: Env, st: Store, id: string): (r: Step)
    ensures r.after == st
    ensures r.out.SuccessData?
    ensures r.out.payload.View? <==> env.validId(id) && id in st.blogs
    ensures r.out.payload.View? ==> r.out.payload.data == Project(id, st.blogs[id])
    ensures !r.out.payload.View? ==> r.out.payload == EmptyObject
  {
    var payload :=
      if !env.validId(id) then EmptyObject
      else if id in st.blogs then View(Project(id, st.blogs[id]))
      else EmptyObject;
    Step(SuccessData(payload), st)
  }

  function CreateGate(env: Env, st: Store, user: UserId, title: string, description: string,
                      newId: Id, now: Time, writeOk: bool): Gate<Step>
  {
    var errs := FailedFields(env, title, description);
    var _ :- Need(errs == [], ValidationError(FieldErrors(errs)));
    var blog := Blog(env.clean(title), env.clean(description), user, now, now);
    var _ :- Need(writeOk && newId !in st.blogs && Required(blog.title) && Required(blog.description),
            ServerError);
    Pass(Step(SuccessData(View(Project(newId, blog))), Store(st.blogs[newId := blog], now)))
  }

  /**
   Creates a document owned by the requester under the id `newId` the
   persistence layer generated. Field validation comes first. The save then
   fails, and nothing is stored, when the write errs, when `newId` is already
   taken, or when a sanitised field is empty (the schema's `required`).
   The record is stamped with the time `now` of the save, which is never
   earlier than any time stamped before.
   */
  function Create(env: Env, st: Store, user: UserId, title: string, description: string,
                  newId: Id, now: Time, writeOk: bool): (r: Step)
    requires now >= st.clock
    ensures r.out.SuccessData? || r.out.ValidationError? || r.out.ServerError?
    ensures r.out.ValidationError? <==> !FieldsOk(env, title, description)
    ensures r.out.ValidationError? ==> r.out.problem == FieldErrors(FailedFields(env, title, description))
    ensures r.out.ValidationError? ==> r.out.problem.fields != []
    ensures r.out.SuccessData? <==>
              && FieldsOk(env, title, description)
              && writeOk && newId !in st.blogs
              && Required(env.clean(title)) && Required(env.clean(description))
    ensures !r.out.SuccessData? ==> r.after == st
    ensures r.out.SuccessData? ==>
              && r.after.blogs.Keys == st.blogs.Keys + {newId}
              && r.after.blogs[newId] == Blog(env.clean(title), env.clean(description), user, now, now)
              && (forall k :: k in st.blogs ==> r.after.blogs[k] == st.blogs[k])
              && r.out.payload == View(Project(newId, r.after.blogs[newId]))
              && r.after.clock == now
  {
    Settle(st, CreateGate(env, st, user, title, description, newId, now, writeOk))
  }

  function UpdateGate(env: Env, st: Store, user: UserId, id: string, title: string, description: string,
                      now: Time, writeOk: bool): Gate<Step>
  {
    var errs := FailedFields(env, title, description);
    var _ :- Need(errs == [], ValidationError(FieldErrors(errs)));
    var _ :- Need(env.validId(id), ValidationError(InvalidId));
    var found :- Find(st, id);
    var _ :- Need(found.user == user, Unauthorized);
    var _ :- Need(writeOk, ServerError);
    var stored := found.(title := env.clean(title), description := env.clean(description), updatedAt := now);
    var sent := BlogData(id, env.clean(title), env.clean(description), None);
    Pass(Step(SuccessData(View(sent)), Store(st.blogs[id := stored], now)))
  }

  /**
   Replaces the title and description of the requester's own document. The
   checks run in a fixed order and the first failure answers. The response is
   built from the request, so it carries the requested id and the new fields
   but no creation time. The update time is the time `now` of the write.
   */
  function Update(env: Env, st: Store, user: UserId, id: string, title: string, description: string,
                  now: Time, writeOk: bool): (r: Step)
    requires now >= st.clock
    ensures r.out.ValidationError? && r.out.problem.FieldErrors? ==>
              r.out.problem.fields == FailedFields(env, title, description)
    ensures r.out.ValidationError? && r.out.problem.FieldErrors? <==> !FieldsOk(env, title, description)
    ensures r.out == ValidationError(InvalidId) <==> FieldsOk(env, title, description) && !env.validId(id)
    ensures r.out.NotFound? <==> FieldsOk(env, title, description) && env.validId(id) && id !in st.blogs
    ensures r.out.Unauthorized? <==>
              FieldsOk(env, title, description) && env.validId(id) && id in st.blogs && st.blogs[id].user != user
    ensures r.out.ServerError? <==>
              FieldsOk(env, title, description) && env.validId(id) && id in st.blogs && st.blogs[id].user == user
              && !writeOk
    ensures r.out.SuccessData? || r.out.IsError()
    ensures !r.out.SuccessData? ==> r.after == st
    ensures r.out.SuccessData? ==>
              && id in st.blogs && st.blogs[id].user == user
              && r.after.blogs.Keys == st.blogs.Keys
              && (forall k :: k in st.blogs && k != id ==> r.after.blogs[k] == st.blogs[k])
              && r.after.blogs[id] == st.blogs[id].(title := env.clean(title), description := env.clean(description),
                                                   updatedAt := now)
              && r.out.payload == View(BlogData(id, env.clean(title), env.clean(description), None))
              && r.after.clock == now
  {
    Settle(st, UpdateGate(env, st, user, id, title, description, now, writeOk))
  }

  function DeleteGate(env: Env, st: Store, user: UserId, id: string, writeOk: bool): Gate<Step>
  {
    var _ :- Need(env.validId(id), ValidationError(InvalidId));
    var found :- Find(st, id);
    var _ :- Need(found.user == user, Unauthorized);
    var _ :- Need(writeOk, ServerError);
    Pass(Step(SuccessEmpty, st.(blogs := st.blogs - {id})))
  }

  /**
   Removes the requester's own document. The checks run in a fixed order and
   the first failure answers; success carries no payload.
   */
  function Delete(env: Env, st: Store, user: UserId, id: string, writeOk: bool): (r: Step)
    ensures r.out == ValidationError(InvalidId) <==> !env.validId(id)
    ensures r.out.NotFound? <==> env.validId(id) && id !in st.blogs
    ensures r.out.Unauthorized? <==> env.validId(id) && id in st.blogs && st.blogs[id].user != user
    ensures r.out.ServerError? <==> env.validId(id) && id in st.blogs && st.blogs[id].user == user && !writeOk
    ensures r.out.SuccessEmpty? || r.out.IsError()
    ensures !r.out.SuccessEmpty? ==> r.after == st
    ensures r.out.SuccessEmpty? ==>
              && id in st.blogs && st.blogs[id].user == user
              && r.after.blogs.Keys == st.blogs.Keys - {id}
              && (forall k :: k in r.after.blogs ==> r.after.blogs[k] == st.blogs[k])
              && r.after.clock == st.clock
  {
    Settle(st, DeleteGate(env, st, user, id, writeOk))
  }
}
