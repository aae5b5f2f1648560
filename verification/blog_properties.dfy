/**
 Properties relating the Blog handlers to one another: what a read observes
 after a write, how the id checks of Detail differ from those of Update and
 Delete, and the order in which a listing shows records created one after
 another.
 */
module BlogProperties {
  import opened BlogModel
  import opened Responses
  import opened BlogController

  /** A projection shows a record's title, description and creation time, and nothing else of it. */
  lemma ProjectionShowsExactly(id: Id, a: Blog, b: Blog)
    ensures Project(id, a) == Project(id, b) <==>
              a.title == b.title && a.description == b.description && a.createdAt == b.createdAt
    ensures Project(id, a).id == id
  {
  }

  /**
   A created record has a non-empty title and description and is owned by
   its creator: the schema's required paths are checked when it is saved.
   */
  lemma CreatedRecordMeetsSchema(env: Env, st: Store, user: UserId, title: string, description: string,
                                 newId: Id, now: Time, writeOk: bool)
    requires now >= st.clock
    requires Create(env, st, user, title, description, newId, now, writeOk).out.SuccessData?
    ensures var b := Create(env, st, user, title, description, newId, now, writeOk).after.blogs[newId];
            Required(b.title) && Required(b.description) && b.user == user
    ensures Required(env.clean(title)) && Required(env.clean(description))
  {
  }

  /**
   An update is not checked against the schema: when sanitising leaves a
   field empty, the owner's update stores the empty field all the same,
   where a create with the same fields fails.
   */
  lemma UpdateSkipsSchema(env: Env, st: Store, user: UserId, id: string, title: string, description: string,
                          newId: Id, now: Time)
    requires now >= st.clock
    requires FieldsOk(env, title, description) && env.validId(id)
    requires id in st.blogs && st.blogs[id].user == user
    requires env.clean(title) == []
    ensures Update(env, st, user, id, title, description, now, true).out.SuccessData?
    ensures !Required(Update(env, st, user, id, title, description, now, true).after.blogs[id].title)
    ensures Create(env, st, user, title, description, newId, now, true).out == ServerError
  {
  }

  /** A malformed id is no error for Detail, but Update and Delete refuse it as "Invalid ID". */
  lemma MalformedIdAsymmetry(env: Env, st: Store, user: UserId, id: string, title: string, description: string,
                             now: Time, writeOk: bool)
    requires now >= st.clock
    requires !env.validId(id)
    ensures Detail(env, st, id).out == SuccessData(EmptyObject)
    ensures Delete(env, st, user, id, writeOk).out == ValidationError(InvalidId)
    ensures FieldsOk(env, title, description) ==>
              Update(env, st, user, id, title, description, now, writeOk).out == ValidationError(InvalidId)
  {
  }

  /** A well-formed id with no record is no error for Detail, but Update and Delete answer not-found. */
  lemma MissingIdAsymmetry(env: Env, st: Store, user: UserId, id: string, title: string, description: string,
                           now: Time, writeOk: bool)
    requires now >= st.clock
    requires env.validId(id) && id !in st.blogs
    ensures Detail(env, st, id).out == SuccessData(EmptyObject)
    ensures Delete(env, st, user, id, writeOk).out == NotFound
    ensures FieldsOk(env, title, description) ==> Update(env, st, user, id, title, description, now, writeOk).out == NotFound
  {
  }

  /** Detail of a freshly created record returns exactly the projection Create answered with. */
  lemma CreateThenDetail(env: Env, st: Store, user: UserId, title: string, description: string,
                         newId: Id, now: Time, writeOk: bool)
    requires now >= st.clock
    requires Create(env, st, user, title, description, newId, now, writeOk).out.SuccessData?
    requires env.validId(newId)
    ensures Detail(env, Create(env, st, user, title, description, newId, now, writeOk).after, newId).out
            == Create(env, st, user, title, description, newId, now, writeOk).out
    ensures Create(env, st, user, title, description, newId, now, writeOk).after.blogs[newId].user == user
  {
  }

  /**
   After a successful Update, Detail shows the new title and description with
   the record's original creation time, which Update's own answer leaves out.
   */
  lemma UpdateThenDetail(env: Env, st: Store, user: UserId, id: string, title: string, description: string,
                         now: Time, writeOk: bool)
    requires now >= st.clock
    requires Update(env, st, user, id, title, description, now, writeOk).out.SuccessData?
    ensures id in st.blogs
    ensures Detail(env, Update(env, st, user, id, title, description, now, writeOk).after, id).out
            == SuccessData(View(BlogData(id, env.clean(title), env.clean(description), Some(st.blogs[id].createdAt))))
    ensures Update(env, st, user, id, title, description, now, writeOk).out.payload.data.createdAt.None?
  {
  }

  /** After a successful Delete the record reads as absent, and deleting it again answers not-found. */
  lemma DeleteThenGone(env: Env, st: Store, user: UserId, id: string, writeOk: bool, writeOk': bool)
    requires Delete(env, st, user, id, writeOk).out.SuccessEmpty?
    ensures Detail(env, Delete(env, st, user, id, writeOk).after, id).out == SuccessData(EmptyObject)
    ensures Delete(env, Delete(env, st, user, id, writeOk).after, user, id, writeOk').out == NotFound
  {
  }

  /**
   A created record is no older than any record already stored; it may share
   its creation time with records saved at the same instant.
   */
  lemma CreateStampsNewest(env: Env, st: Store, user: UserId, title: string, description: string,
                           newId: Id, now: Time, writeOk: bool)
    requires Valid(st) && now >= st.clock
    requires Create(env, st, user, title, description, newId, now, writeOk).out.SuccessData?
    ensures Valid(Create(env, st, user, title, description, newId, now, writeOk).after)
    ensures var after := Create(env, st, user, title, description, newId, now, writeOk).after;
            forall k :: k in st.blogs ==> after.blogs[k].createdAt <= after.blogs[newId].createdAt
  {
  }

  /** In a newest-first listing, a strictly newer record comes before an older one. */
  lemma NewerListedFirst(docs: seq<Entry>, blogs: map<Id, Blog>, newer: Id, older: Id)
    requires Listing(docs, blogs) && NewestFirst(docs)
    requires newer in blogs && older in blogs
    requires blogs[newer].createdAt > blogs[older].createdAt
    ensures exists i :: 0 <= i < |docs| && docs[i].id == newer
    ensures exists j :: 0 <= j < |docs| && docs[j].id == older
    ensures forall i, j :: 0 <= i < |docs| && 0 <= j < |docs| && docs[i].id == newer && docs[j].id == older ==> i < j
  {
  }

  /** Two records with the same creation time may be listed in either order. */
  lemma TiesListEitherWay(x: Entry, y: Entry)
    requires x.id != y.id && x.blog.createdAt == y.blog.createdAt
    ensures Listing([x, y], map[x.id := x.blog, y.id := y.blog]) && NewestFirst([x, y])
    ensures Listing([y, x], map[x.id := x.blog, y.id := y.blog]) && NewestFirst([y, x])
  {
  }

  /** Where an id sits in a listing that contains it. */
  function IndexOf(docs: seq<Entry>, id: Id): (i: nat)
    requires id in IdsOf(docs)
    ensures i < |docs| && docs[i].id == id
  {
    if docs[0].id == id then 0
    else
      assert id in IdsOf(docs[1..]) by {
        var x :| x in docs && x.id == id;
        assert x != docs[0];
      }
      1 + IndexOf(docs[1..], id)
  }

  /**
   Records created A, then B, then C at strictly increasing times are listed
   C, B, A. Records saved at the same instant may be listed in either order.
   */
  lemma ThreeCreatesListedNewestFirst(env: Env, st: Store, user: UserId,
                                      a: Id, ta: string, da: string,
                                      b: Id, tb: string, db: string,
                                      c: Id, tc: string, dc: string,
                                      na: Time, nb: Time, nc: Time,
                                      s1: Step, s2: Step, s3: Step, docs: seq<Entry>)
    requires Valid(st) && st.clock <= na < nb < nc
    requires s1 == Create(env, st, user, ta, da, a, na, true) && s1.out.SuccessData?
    requires s2 == Create(env, s1.after, user, tb, db, b, nb, true) && s2.out.SuccessData?
    requires s3 == Create(env, s2.after, user, tc, dc, c, nc, true) && s3.out.SuccessData?
    requires Listing(docs, s3.after.blogs) && NewestFirst(docs)
    ensures c in IdsOf(docs) && b in IdsOf(docs) && a in IdsOf(docs)
    ensures IndexOf(docs, c) < IndexOf(docs, b) < IndexOf(docs, a)
  {
    assert s3.after.blogs[a].createdAt == na && s3.after.blogs[b].createdAt == nb;
    NewerListedFirst(docs, s3.after.blogs, c, b);
    NewerListedFirst(docs, s3.after.blogs, b, a);
  }

  /**
   The walk-through of a record's life: U1 creates it, anyone reads it, U2
   may not change it, U1 deletes it, and it then reads as absent.
   */
  lemma LifeOfARecord(env: Env, st: Store, u1: UserId, u2: UserId, x: Id, title: string, description: string,
                      title2: string, description2: string, now1: Time, now2: Time)
    requires u1 != u2 && env.validId(x)
    requires st.clock <= now1 <= now2
    requires Create(env, st, u1, title, description, x, now1, true).out.SuccessData?
    requires FieldsOk(env, title2, description2)
    ensures var s1 := Create(env, st, u1, title, description, x, now1, true).after;
            && Detail(env, s1, x).out.payload.data.title == env.clean(title)
            && Detail(env, s1, x).out.payload.data.description == env.clean(description)
            && Update(env, s1, u2, x, title2, description2, now2, true).out == Unauthorized
            && Update(env, s1, u2, x, title2, description2, now2, true).after == s1
            && Delete(env, s1, u1, x, true).out == SuccessEmpty
            && Detail(env, Delete(env, s1, u1, x, true).after, x).out == SuccessData(EmptyObject)
  {
  }
}
