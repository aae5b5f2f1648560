/**
 The persisted shape of a Blog document and the in-memory store that stands
 in for the document collection.

 A document carries a title, a description, a reference to its owning user,
 and the two timestamps the persistence layer maintains (`timestamps: true`).
 The store maps document ids to documents and holds a clock: the latest
 time a successful create or update stamped. A write is stamped with the
 time it happens, never earlier than the clock; two writes may share a time.
 */
module BlogModel {

  /** A document id as it appears in a request path and as a store key. */
  type Id = string

  /** The identity of an authenticated user, as supplied by the token middleware. */
  type UserId = string

  type Time = nat

  datatype Option<+T> = None | Some(value: T)

  /** One stored Blog document. */
  datatype Blog = Blog(
    title: string,
    description: string,
    user: UserId,
    createdAt: Time,
    updatedAt: Time)

  /** The collection of Blog documents, keyed by id, and the latest time a write stamped. */
  datatype Store = Store(blogs: map<Id, Blog>, clock: Time)

  /** A stored document together with its id: what a list query yields. */
  datatype Entry = Entry(id: Id, blog: Blog)

  /**
   The projection returned to clients. `createdAt` is absent when the
   projection is built from a document that was never saved.
   */
  datatype BlogData = BlogData(id: Id, title: string, description: string, createdAt: Option<Time>)

  /** The projection of a stored document. */
  function Project(id: Id, b: Blog): BlogData
  {
    BlogData(id, b.title, b.description, Some(b.createdAt))
  }

  /** The schema's `required: true` validator for a String path: the empty string is missing. */
  predicate Required(s: string)
  {
    |s| > 0
  }

  /** No stored timestamp is later than the store's clock, and no document was updated before it was created. */
  ghost predicate Valid(st: Store)
  {
    forall k :: k in st.blogs ==> st.blogs[k].createdAt <= st.blogs[k].updatedAt <= st.clock
  }

  /** The ids of a sequence of entries. */
  function IdsOf(docs: seq<Entry>): set<Id>
  {
    set x | x in docs :: x.id
  }

  /** No id occurs twice. */
  ghost predicate DistinctIds(docs: seq<Entry>)
  {
    forall i, j :: 0 <= i < j < |docs| ==> docs[i].id != docs[j].id
  }

  /** Ordered by `createdAt`, newest first; documents with equal timestamps may come in either order. */
  ghost predicate NewestFirst(docs: seq<Entry>)
  {
    forall i, j :: 0 <= i < j < |docs| ==> docs[i].blog.createdAt >= docs[j].blog.createdAt
  }

  /** `docs` lists every document of `blogs` exactly once, each with its stored contents. */
  ghost predicate Listing(docs: seq<Entry>, blogs: map<Id, Blog>)
  {
    && (forall x :: x in docs ==> x.id in blogs && blogs[x.id] == x.blog)
    && DistinctIds(docs)
    && IdsOf(docs) == blogs.Keys
  }
}
