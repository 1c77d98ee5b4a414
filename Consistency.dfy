/** The link between the two collections: a user's `properties` list names
    properties that exist and that the user owns, each once. Which handlers
    keep it, and the one that does not. */
module Consistency {
  import opened Documents
  import opened Lists
  import opened Handlers

  ghost predicate ListsOwned(t: Tables)
  {
    forall u, id :: u in t.user && id in t.user[u].properties ==>
      id in t.property && OwnedBy(t.property[id], u)
  }

  ghost predicate Consistent(t: Tables)
  {
    && ListsOwned(t)
    && (forall u :: u in t.user ==> NoDup(t.user[u].properties))
  }

  /** The list handler, on consistent tables, answers the caller's own
      documents, each with all its stored fields. */
  lemma ListShowsOwnDocuments(t: Tables, auth: Auth)
    requires Consistent(t)
    requires ListProperties(t, auth).status == 200
    ensures forall e :: e in ListProperties(t, auth).entries ==>
      OwnedBy(e, auth.uid) && e.Keys == t.property[e[IdField].s].Keys + {IdField}
  {
    var ids := t.user[auth.uid].properties;
    var entries := ListProperties(t, auth).entries;
    forall e | e in entries
      ensures OwnedBy(e, auth.uid) && e.Keys == t.property[e[IdField].s].Keys + {IdField}
    {
      var k :| 0 <= k < |entries| && entries[k] == e;
      assert ids[k] in ids;
      assert e[IdField].s == ids[k];
    }
  }

  lemma UpdateKeepsConsistent(t: Tables, auth: Auth, id: string, submitted: Option<Doc>)
    requires Consistent(t)
    ensures Consistent(UpdateProperty(t, auth, id, submitted).after)
  {
    var r := UpdateProperty(t, auth, id, submitted);
    if r.status == 200 {
      forall u, p | u in r.after.user && p in r.after.user[u].properties
        ensures p in r.after.property && OwnedBy(r.after.property[p], u)
      {
        if p == id {
          OwnerIsUnique(t.property[id], u, auth.uid);
        }
      }
    }
  }

  lemma CreateKeepsConsistent(t: Tables, auth: Auth, body: Doc, freshId: string)
    requires Consistent(t) && freshId !in t.property
    ensures Consistent(CreateProperty(t, auth, body, freshId).after)
  {
    var r := CreateProperty(t, auth, body, freshId);
    forall u | u in r.after.user
      ensures NoDup(r.after.user[u].properties)
      ensures forall p :: p in r.after.user[u].properties ==> p in r.after.property && OwnedBy(r.after.property[p], u)
    {
      CreateListOfUser(t, auth, body, freshId, u);
    }
  }

  /** One user's list after create: the caller's gains the new id, which no
      list named before, and every other list stays as it was. */
  lemma CreateListOfUser(t: Tables, auth: Auth, body: Doc, freshId: string, u: string)
    requires Consistent(t) && freshId !in t.property && u in t.user
    ensures NoDup(CreateProperty(t, auth, body, freshId).after.user[u].properties)
    ensures forall p :: p in CreateProperty(t, auth, body, freshId).after.user[u].properties ==>
      p in CreateProperty(t, auth, body, freshId).after.property &&
      OwnedBy(CreateProperty(t, auth, body, freshId).after.property[p], u)
  {
    var r := CreateProperty(t, auth, body, freshId);
    var s := t.user[u].properties;
    assert NoDup(s);
    assert forall p :: p in s ==> p in t.property && OwnedBy(t.property[p], u);
    if r.status == 201 && u == auth.uid {
      AppendNoDup(s, freshId);
      assert forall p :: p in r.after.user[u].properties ==> p in s || p == freshId;
    } else {
      assert r.after.user[u] == t.user[u];
    }
  }

  lemma CreateUserKeepsConsistent(t: Tables, auth: Auth, profile: Profile)
    requires Consistent(t)
    ensures Consistent(CreateUser(t, auth, profile).after)
  {
  }

  /** A delete by the property's owner (admin or not) keeps the tables
      consistent: the owner's list was the only one naming the property. */
  lemma OwnerDeleteKeepsConsistent(t: Tables, auth: Auth, id: string)
    requires Consistent(t)
    requires auth.Verified? && id in t.property ==> OwnedBy(t.property[id], auth.uid)
    ensures Consistent(DeleteProperty(t, auth, id).after)
  {
    var r := DeleteProperty(t, auth, id);
    if r.status == 200 {
      forall u | u in r.after.user
        ensures NoDup(r.after.user[u].properties)
        ensures forall p :: p in r.after.user[u].properties ==> p in r.after.property && OwnedBy(r.after.property[p], u)
      {
        OwnerDeleteListOfUser(t, auth, id, u);
      }
    }
  }

  /** One user's list after a delete by the owner. */
  lemma OwnerDeleteListOfUser(t: Tables, auth: Auth, id: string, u: string)
    requires Consistent(t)
    requires DeleteProperty(t, auth, id).status == 200 && OwnedBy(t.property[id], auth.uid)
    requires u in t.user
    ensures NoDup(DeleteProperty(t, auth, id).after.user[u].properties)
    ensures forall p :: p in DeleteProperty(t, auth, id).after.user[u].properties ==>
      p in t.property && p != id && OwnedBy(t.property[p], u)
  {
    var s := t.user[u].properties;
    assert NoDup(s);
    assert forall p :: p in s ==> p in t.property && OwnedBy(t.property[p], u);
    if u == auth.uid {
      DropFirstNoDup(s, id);
    } else if id in s {
      OwnerIsUnique(t.property[id], u, auth.uid);
    }
  }

  /** As written, an admin who deletes someone else's property edits the
      admin's own list, so the owner's list keeps naming a deleted document. */
  lemma AdminDeleteLeavesStaleEntry(t: Tables, auth: Auth, id: string, owner: string)
    requires Consistent(t)
    requires auth.Verified? && auth.admin && auth.uid != owner
    requires owner in t.user && id in t.user[owner].properties
    ensures DeleteProperty(t, auth, id).status == 200
    ensures id in DeleteProperty(t, auth, id).after.user[owner].properties
    ensures id !in DeleteProperty(t, auth, id).after.property
    ensures !Consistent(DeleteProperty(t, auth, id).after)
  {
    var after := DeleteProperty(t, auth, id).after;
    assert after.user[owner] == t.user[owner];
  }

  /** The owner's uid as the stored `ownerId` names it, if it is a string. */
  function StoredOwner(d: Doc): (o: Option<string>)
    ensures o.Some? ==> OwnedBy(d, o.value)
    ensures forall u :: OwnedBy(d, u) ==> o == Some(u)
  {
    if OwnerField in d && d[OwnerField].Str? then Some(d[OwnerField].s) else None
  }

  /** DELETE as evidently intended: same authorization and status codes, but
      the id is dropped from the OWNER's list rather than the caller's. */
  function DeleteFromOwner(t: Tables, auth: Auth, id: string): (r: Outcome)
    ensures r.status == 200 || r.status == 401 || r.status == 404 || r.status == 500
    ensures r.status == 500 <==> auth.Rejected?
    ensures r.status == 404 <==> auth.Verified? && id !in t.property
    ensures r.status == 401 <==>
      auth.Verified? && id in t.property && !OwnedBy(t.property[id], auth.uid) && !auth.admin
    ensures r.status != 200 ==> r.after == t
    ensures r.status == 200 ==> r.after.property == t.property - {id} && r.after.user.Keys == t.user.Keys
  {
    match auth
    case Rejected => Outcome(500, t)
    case Verified(uid, _, admin) =>
      if id !in t.property then Outcome(404, t)
      else if !(OwnedBy(t.property[id], uid) || admin) then Outcome(401, t)
      else
        var property := t.property - {id};
        match StoredOwner(t.property[id])
        case None => Outcome(200, t.(property := property))
        case Some(owner) =>
          if owner !in t.user then Outcome(200, t.(property := property))
          else
            var record := t.user[owner];
            var properties := SpliceIndexOf(record.properties, id);
            Outcome(200, Tables(property, t.user[owner := record.(properties := properties)]))
  }

  /** On success the corrected delete edits the owner's list, and only it,
      by removing the first copy of the id. */
  lemma DeleteFromOwnerEditsOwnerList(t: Tables, auth: Auth, id: string, u: string)
    requires DeleteFromOwner(t, auth, id).status == 200 && u in t.user
    ensures OwnedBy(t.property[id], u) ==>
      DeleteFromOwner(t, auth, id).after.user[u] == t.user[u].(properties := DropFirst(t.user[u].properties, id))
    ensures !OwnedBy(t.property[id], u) ==> DeleteFromOwner(t, auth, id).after.user[u] == t.user[u]
  {
    var d := t.property[id];
    if OwnedBy(d, u) {
      assert StoredOwner(d) == Some(u);
      IndexOfThenSplice(t.user[u].properties, id);
    } else if StoredOwner(d).Some? {
      assert StoredOwner(d).value != u;
    }
  }

  /** The corrected delete keeps the tables consistent whoever deletes. */
  lemma DeleteFromOwnerKeepsConsistent(t: Tables, auth: Auth, id: string)
    requires Consistent(t)
    ensures Consistent(DeleteFromOwner(t, auth, id).after)
  {
    var r := DeleteFromOwner(t, auth, id);
    if r.status == 200 {
      forall u | u in r.after.user
        ensures NoDup(r.after.user[u].properties)
        ensures forall p :: p in r.after.user[u].properties ==> p in r.after.property && OwnedBy(r.after.property[p], u)
      {
        DeleteFromOwnerListOfUser(t, auth, id, u);
      }
    }
  }

  /** One user's list after the corrected delete. */
  lemma DeleteFromOwnerListOfUser(t: Tables, auth: Auth, id: string, u: string)
    requires Consistent(t)
    requires DeleteFromOwner(t, auth, id).status == 200 && u in t.user
    ensures NoDup(DeleteFromOwner(t, auth, id).after.user[u].properties)
    ensures forall p :: p in DeleteFromOwner(t, auth, id).after.user[u].properties ==>
      p in t.property && p != id && OwnedBy(t.property[p], u)
  {
    var s := t.user[u].properties;
    assert NoDup(s);
    assert forall p :: p in s ==> p in t.property && OwnedBy(t.property[p], u);
    DeleteFromOwnerEditsOwnerList(t, auth, id, u);
    if OwnedBy(t.property[id], u) {
      DropFirstNoDup(s, id);
    }
  }

  /** Once a delete has succeeded, deleting the same id again is 404. */
  lemma DeleteTwiceNotFound(t: Tables, auth: Auth, id: string, again: Auth)
    requires DeleteProperty(t, auth, id).status == 200
    requires again.Verified?
    ensures DeleteProperty(DeleteProperty(t, auth, id).after, again, id).status == 404
  {
  }
}
