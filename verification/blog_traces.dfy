/**
 Sequences of write requests (create, update, delete) from several users,
 applied one after another to the store. The ownership rules of the handlers
 are stated here for whole sequences: a user who does not own a record can
 never change it, and every record is owned by the user whose create made it.
 */
module BlogTraces {
  import opened BlogModel
  import opened Responses
  import opened BlogController

  /** The inputs of one write request besides the requester. */
  datatype Write =
    | CreateReq(title: string, description: string, newId: Id, now: Time, writeOk: bool)
    | UpdateReq(id: string, title: string, description: string, now: Time, writeOk: bool)
    | DeleteReq(id: string, writeOk: bool)

  /** A write request and the identity that made it. */
  datatype Call = Call(user: UserId, write: Write)

  /** A request that stamps a time is made no earlier than the store's latest stamp. */
  predicate Timely(st: Store, c: Call)
  {
    match c.write
    case CreateReq(_, _, _, now, _) => now >= st.clock
    case UpdateReq(_, _, _, now, _) => now >= st.clock
    case DeleteReq(_, _) => true
  }

  function Apply(env: Env, st: Store, c: Call): Step
    requires Timely(st, c)
  {
    match c.write
    case CreateReq(t, d, n, now, ok) => Create(env, st, c.user, t, d, n, now, ok)
    case UpdateReq(id, t, d, now, ok) => Update(env, st, c.user, id, t, d, now, ok)
    case DeleteReq(id, ok) => Delete(env, st, c.user, id, ok)
  }

  /** Each request of `calls` is timely for the store it is applied to. */
  predicate Chronological(env: Env, st: Store, calls: seq<Call>)
    decreases |calls|
  {
    |calls| == 0 || (Timely(st, calls[0]) && Chronological(env, Apply(env, st, calls[0]).after, calls[1..]))
  }

  /** The store after the requests of `calls`, in order. */
  function Run(env: Env, st: Store, calls: seq<Call>): Store
    requires Chronological(env, st, calls)
    decreases |calls|
  {
    if |calls| == 0 then st else Run(env, Apply(env, st, calls[0]).after, calls[1..])
  }

  /** `c` is a create of id `k` made by `u`. */
  predicate CreatedBy(c: Call, k: Id, u: UserId)
  {
    c.write.CreateReq? && c.write.newId == k && c.user == u
  }

  /**
   One write request: an error answer leaves the store as it was; a record
   the requester does not own is left as it was; no record changes owner; and
   a record that appears was created by this request, owned by the requester.
   */
  lemma WriteRespectsOwnership(env: Env, st: Store, c: Call)
    requires Timely(st, c)
    ensures Apply(env, st, c).out.IsError() ==> Apply(env, st, c).after == st
    ensures forall k :: k in st.blogs && st.blogs[k].user != c.user ==>
              k in Apply(env, st, c).after.blogs && Apply(env, st, c).after.blogs[k] == st.blogs[k]
    ensures forall k :: k in st.blogs && k in Apply(env, st, c).after.blogs ==>
              Apply(env, st, c).after.blogs[k].user == st.blogs[k].user
    ensures forall k :: k in Apply(env, st, c).after.blogs && k !in st.blogs ==>
              CreatedBy(c, k, Apply(env, st, c).after.blogs[k].user)
  {
  }

  /** Every write request keeps every timestamp no later than the clock, and never moves the clock back. */
  lemma WritePreservesValid(env: Env, st: Store, c: Call)
    requires Valid(st) && Timely(st, c)
    ensures Valid(Apply(env, st, c).after)
    ensures Apply(env, st, c).after.clock >= st.clock
  {
  }

  lemma {:induction false} RunPreservesValid(env: Env, st: Store, calls: seq<Call>)
    requires Valid(st) && Chronological(env, st, calls)
    ensures Valid(Run(env, st, calls))
    ensures Run(env, st, calls).clock >= st.clock
    decreases |calls|
  {
    if |calls| > 0 {
      WritePreservesValid(env, st, calls[0]);
      RunPreservesValid(env, Apply(env, st, calls[0]).after, calls[1..]);
    }
  }

  /** A record survives unchanged any sequence of requests none of which its owner made. */
  lemma {:induction false} ForeignRecordSurvives(env: Env, st: Store, calls: seq<Call>, k: Id)
    requires Chronological(env, st, calls)
    requires k in st.blogs
    requires forall i :: 0 <= i < |calls| ==> calls[i].user != st.blogs[k].user
    ensures k in Run(env, st, calls).blogs && Run(env, st, calls).blogs[k] == st.blogs[k]
    decreases |calls|
  {
    if |calls| > 0 {
      var st1 := Apply(env, st, calls[0]).after;
      WriteRespectsOwnership(env, st, calls[0]);
      assert k in st1.blogs && st1.blogs[k] == st.blogs[k];
      ForeignRecordSurvives(env, st1, calls[1..], k);
    }
  }

  /**
   Every record after a sequence of requests is either one that was already
   there with the same owner, or was made by a create whose requester owns it.
   */
  lemma {:induction false} OwnerIsCreator(env: Env, st: Store, calls: seq<Call>, k: Id)
    requires Chronological(env, st, calls)
    requires k in Run(env, st, calls).blogs
    ensures || (k in st.blogs && st.blogs[k].user == Run(env, st, calls).blogs[k].user)
            || (exists i :: 0 <= i < |calls| && CreatedBy(calls[i], k, Run(env, st, calls).blogs[k].user))
    decreases |calls|
  {
    if |calls| > 0 {
      var st1 := Apply(env, st, calls[0]).after;
      var owner := Run(env, st, calls).blogs[k].user;
      assert Run(env, st, calls) == Run(env, st1, calls[1..]);
      OwnerIsCreator(env, st1, calls[1..], k);
      WriteRespectsOwnership(env, st, calls[0]);
      if k in st1.blogs && st1.blogs[k].user == owner {
        if !(k in st.blogs && st.blogs[k].user == owner) {
          assert CreatedBy(calls[0], k, owner);
        }
      } else {
        var i :| 0 <= i < |calls[1..]| && CreatedBy(calls[1..][i], k, owner);
        assert CreatedBy(calls[i + 1], k, owner);
      }
    }
  }
}
