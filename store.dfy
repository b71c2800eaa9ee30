/**
 * The document store the controllers talk to, reduced to what they rely on: four collections
 * kept in insertion order, lookup/update/delete by identifier, and the set of store operations
 * that currently fail (an unreachable store, a write error, a decode error).
 */
module Store {
  import opened Wrappers
  import opened ObjectIds
  import opened Models

  datatype Collection = Users | Projects | Experiences | Certifications

  /** One kind of store call on one collection. */
  datatype StoreOp =
    | FindAll(coll: Collection)   // SimpleFind / Find with a filter
    | Decode(coll: Collection)    // decoding a cursor into documents
    | FindOne(coll: Collection)   // First / FindByID
    | Insert(coll: Collection)    // Create
    | Update(coll: Collection)    // Update / UpdateByID
    | Delete(coll: Collection)    // Delete

  predicate HasId<M>(docs: seq<Doc<M>>, id: ObjectId) {
    exists i :: 0 <= i < |docs| && docs[i].id == id
  }

  /** The unique index on `_id`: no two documents of a collection share an identifier. */
  predicate UniqueIds<M>(docs: seq<Doc<M>>) {
    forall i, j :: 0 <= i < j < |docs| ==> docs[i].id != docs[j].id
  }

  /** FindByID: the document with identifier `id`, if there is one. */
  function Lookup<M>(docs: seq<Doc<M>>, id: ObjectId): (r: Option<Doc<M>>)
    ensures r.Some? ==> r.value in docs && r.value.id == id
    ensures r.None? <==> !HasId(docs, id)
  {
    if |docs| == 0 then None
    else if docs[0].id == id then Some(docs[0])
    else
      var r := Lookup(docs[1..], id);
      assert HasId(docs, id) ==> HasId(docs[1..], id) by {
        if HasId(docs, id) {
          var i :| 0 <= i < |docs| && docs[i].id == id;
          assert docs[1..][i - 1].id == id;
        }
      }
      r
  }

  /** UpdateByID with a `$set` of the whole model: the document with identifier `id` gets model `m`. */
  function Replace<M>(docs: seq<Doc<M>>, id: ObjectId, m: M): (r: seq<Doc<M>>)
    ensures |r| == |docs| && forall i :: 0 <= i < |docs| ==> r[i].id == docs[i].id
    ensures forall i :: 0 <= i < |docs| && docs[i].id != id ==> r[i] == docs[i]
    ensures forall i :: 0 <= i < |docs| && docs[i].id == id ==> r[i].model == m
    ensures !HasId(docs, id) ==> r == docs
  {
    seq(|docs|, i requires 0 <= i < |docs| => if docs[i].id == id then Doc(id, m) else docs[i])
  }

  /** Delete by identifier: the collection without the document `id`, the rest in order. */
  function Without<M>(docs: seq<Doc<M>>, id: ObjectId): (r: seq<Doc<M>>)
    ensures |r| <= |docs|
    ensures forall i :: 0 <= i < |r| ==> r[i] in docs && r[i].id != id
    ensures forall i :: 0 <= i < |docs| && docs[i].id != id ==> docs[i] in r
  {
    if |docs| == 0 then []
    else Without(docs[..|docs| - 1], id) + (if docs[|docs| - 1].id == id then [] else [docs[|docs| - 1]])
  }

  lemma {:induction false} WithoutUnique<M>(docs: seq<Doc<M>>, id: ObjectId)
    requires UniqueIds(docs)
    ensures UniqueIds(Without(docs, id)) && !HasId(Without(docs, id), id)
  {
    if |docs| > 0 {
      var init := docs[..|docs| - 1];
      WithoutUnique(init, id);
      var w := Without(init, id);
      forall i | 0 <= i < |w|
        ensures w[i].id != docs[|docs| - 1].id
      {
        assert w[i] in init;
      }
    }
  }

  /** After an update by identifier every document keeps its identifier and position. */
  lemma ReplaceKeepsIds<M>(docs: seq<Doc<M>>, id: ObjectId, m: M)
    ensures forall i :: 0 <= i < |docs| ==> Replace(docs, id, m)[i].id == docs[i].id
    ensures UniqueIds(docs) ==> UniqueIds(Replace(docs, id, m))
    ensures HasId(docs, id) ==> Lookup(Replace(docs, id, m), id) == Some(Doc(id, m))
    ensures forall other :: other != id ==> Lookup(Replace(docs, id, m), other) == Lookup(docs, other)
  {
    var r := Replace(docs, id, m);
    if HasId(docs, id) {
      var i :| 0 <= i < |docs| && docs[i].id == id;
      assert r[i] == Doc(id, m);
      assert HasId(r, id);
    }
    forall other | other != id
      ensures Lookup(r, other) == Lookup(docs, other)
    {
      LookupReplaceOther(docs, id, m, other);
    }
  }

  lemma {:induction false} LookupReplaceOther<M>(docs: seq<Doc<M>>, id: ObjectId, m: M, other: ObjectId)
    requires other != id
    ensures Lookup(Replace(docs, id, m), other) == Lookup(docs, other)
  {
    if |docs| > 0 {
      assert Replace(docs, id, m)[1..] == Replace(docs[1..], id, m);
      LookupReplaceOther(docs[1..], id, m, other);
    }
  }

  /** The in-memory store. */
  class Db {
    var users: seq<Doc<User>>
    var projects: seq<Doc<Project>>
    var experiences: seq<Doc<Experience>>
    var certifications: seq<Doc<Certification>>
    /** The store calls that fail in this state. */
    var down: set<StoreOp>

    ghost predicate Valid()
      reads this
    {
      UniqueIds(users) && UniqueIds(projects) && UniqueIds(experiences) && UniqueIds(certifications)
    }

    constructor ()
      ensures Valid()
      ensures users == [] && projects == [] && experiences == [] && certifications == [] && down == {}
    {
      users, projects, experiences, certifications, down := [], [], [], [], {};
    }

    /**
     * `First(bson.M{})`: the singleton owner, or `None` when there is none or the lookup fails.
     * The store keeps insertion order, so the owner is the first user stored.
     */
    function FirstUser(): (u: Option<Doc<User>>)
      reads this
      ensures u.Some? <==> FindOne(Users) !in down && |users| > 0
      ensures u.Some? ==> u.value == users[0]
      ensures u.Some? && Valid() ==> forall k :: 0 < k < |users| ==> users[k].id != u.value.id
    {
      if FindOne(Users) in down || |users| == 0 then None else Some(users[0])
    }
  }
}
