/** The six request handlers of server.js, each as a transition of the store:
    from the tables before the request, the decoded token and the request
    body to the response status (and body, where it carries data) and the
    tables after the request. */
module Handlers {
  import opened Documents
  import opened Lists

  /** Status of a handler that answers with text, and the tables it leaves. */
  datatype Outcome = Outcome(status: nat, after: Tables)

  /** GET /api/property/:propertyId: the stored fields with `id` set to the
      requested id. A missing document still answers 200, with only `id`. */
  function GetProperty(property: map<string, Doc>, id: string): (r: Doc)
    ensures IdField in r && r[IdField] == Str(id)
    ensures id !in property ==> r == map[IdField := Str(id)]
    ensures id in property ==> r.Keys == property[id].Keys + {IdField}
    ensures id in property ==> forall k :: k in property[id] && k != IdField ==> r[k] == property[id][k]
  {
    WithId(Fields(property, id), id)
  }

  /** `properties.map(...)`: one entry per listed id, in list order, each
      what GET would answer for that id. */
  function Entries(ids: seq<string>, property: map<string, Doc>): (r: seq<Doc>)
    ensures |r| == |ids|
    ensures forall k :: 0 <= k < |ids| ==> r[k] == GetProperty(property, ids[k])
  {
    if ids == [] then []
    else [GetProperty(property, ids[0])] + Entries(ids[1..], property)
  }

  /** Response of the list handler: 200 with the entries, or 403. */
  datatype Listing = Listing(status: nat, entries: seq<Doc>)

  /** POST /api/user/property: the caller's properties. A failed token, or a
      caller without a user document, lands in the catch block: 403. */
  function ListProperties(t: Tables, auth: Auth): (r: Listing)
    ensures r.status == 200 || r.status == 403
    ensures r.status == 200 <==> auth.Verified? && auth.uid in t.user
    ensures r.status == 403 ==> r.entries == []
    ensures r.status == 200 ==>
      var ids := t.user[auth.uid].properties;
      |r.entries| == |ids| &&
      forall k :: 0 <= k < |ids| ==> r.entries[k] == GetProperty(t.property, ids[k])
  {
    match auth
    case Rejected => Listing(403, [])
    case Verified(uid, _, _) =>
      if uid !in t.user then Listing(403, [])
      else Listing(200, Entries(t.user[uid].properties, t.property))
  }

  /** PUT /api/user/property. `submitted` is the body's `property`, None when
      it is not an object. Reading `ownerId` of a missing document throws
      (400); a caller other than the stored owner gets 403; assigning
      `ownerId` on a missing body throws (400); otherwise the owner's fields
      are merged in, with `ownerId` forced to the caller. */
  function UpdateProperty(t: Tables, auth: Auth, id: string, submitted: Option<Doc>): (r: Outcome)
    ensures r.status == 200 || r.status == 400 || r.status == 403
    ensures r.status == 403 <==> auth.Verified? && id in t.property && !OwnedBy(t.property[id], auth.uid)
    ensures r.status == 200 <==>
      auth.Verified? && id in t.property && OwnedBy(t.property[id], auth.uid) && submitted.Some?
    ensures r.status != 200 ==> r.after == t
    ensures r.status == 200 ==>
      && r.after.user == t.user
      && r.after.property.Keys == t.property.Keys
      && (forall p :: p in t.property && p != id ==> r.after.property[p] == t.property[p])
      && OwnedBy(r.after.property[id], auth.uid)
      && r.after.property[id].Keys == t.property[id].Keys + submitted.value.Keys
      && (forall k :: k in submitted.value && k != OwnerField ==> r.after.property[id][k] == submitted.value[k])
      && (forall k :: k in t.property[id] && k !in submitted.value ==> r.after.property[id][k] == t.property[id][k])
  {
    match auth
    case Rejected => Outcome(400, t)
    case Verified(uid, _, _) =>
      if id !in t.property then Outcome(400, t)
      else if !OwnedBy(t.property[id], uid) then Outcome(403, t)
      else if submitted.None? then Outcome(400, t)
      else
        var verified := submitted.value[OwnerField := Str(uid)];
        Outcome(200, t.(property := t.property[id := Merge(t.property[id], verified)]))
  }

  /** DELETE /api/property. A failed token lands in the catch block (500); a
      missing document is 404; a caller who is neither the owner nor an admin
      is 401. Otherwise the document is deleted and the id is taken out of
      the CALLER's list (the first occurrence), when the caller has a user
      document and the id occurs in it. */
  function DeleteProperty(t: Tables, auth: Auth, id: string): (r: Outcome)
    ensures r.status == 200 || r.status == 401 || r.status == 404 || r.status == 500
    ensures r.status == 500 <==> auth.Rejected?
    ensures r.status == 404 <==> auth.Verified? && id !in t.property
    ensures r.status == 401 <==>
      auth.Verified? && id in t.property && !OwnedBy(t.property[id], auth.uid) && !auth.admin
    ensures r.status != 200 ==> r.after == t
    ensures r.status == 200 ==>
      && r.after.property == t.property - {id}
      && r.after.user.Keys == t.user.Keys
      && (forall u :: u in t.user && u != auth.uid ==> r.after.user[u] == t.user[u])
      && (auth.uid in t.user ==>
            r.after.user[auth.uid] ==
            t.user[auth.uid].(properties := DropFirst(t.user[auth.uid].properties, id)))
  {
    match auth
    case Rejected => Outcome(500, t)
    case Verified(uid, _, admin) =>
      if id !in t.property then Outcome(404, t)
      else if !(OwnedBy(t.property[id], uid) || admin) then Outcome(401, t)
      else
        var property := t.property - {id};
        if uid !in t.user then Outcome(200, t.(property := property))
        else
          var record := t.user[uid];
          IndexOfThenSplice(record.properties, id);
          var properties := SpliceIndexOf(record.properties, id);
          Outcome(200, Tables(property, t.user[uid := record.(properties := properties)]))
  }

  /** The fields the create handler takes out of the request body. */
  const FormFields: set<string> :=
    {"shortAddress", "fullAddress", "price", "city", "phone", "propertySize",
     "propertyType", "lotSize", "numOfBathrooms", "numOfBedrooms", "images"}

  /** The document the create handler adds: the form fields and the caller as
      owner. Any `ownerId` in the body is not among the fields read. */
  function NewProperty(body: Doc, uid: string): (d: Doc)
    requires FormFields <= body.Keys
    ensures d.Keys == FormFields + {OwnerField}
    ensures OwnedBy(d, uid)
    ensures forall k :: k in FormFields ==> d[k] == body[k]
  {
    (map k | k in FormFields :: body[k])[OwnerField := Str(uid)]
  }

  /** POST /api/property. A failed token lands in the catch block (500). A
      form field absent from the body is `undefined`, which the store refuses
      to add (500, nothing written). Otherwise the document is added under
      `freshId` BEFORE the caller's user document is read, so a caller
      without one gets 500 with the property already stored; a caller with
      one gets 201 and `freshId` appended to their list. */
  function CreateProperty(t: Tables, auth: Auth, body: Doc, freshId: string): (r: Outcome)
    requires freshId !in t.property
    ensures r.status == 201 || r.status == 500
    ensures r.status == 201 <==> auth.Verified? && FormFields <= body.Keys && auth.uid in t.user
    ensures !(auth.Verified? && FormFields <= body.Keys) ==> r.after == t
    ensures auth.Verified? && FormFields <= body.Keys ==>
      && r.after.property.Keys == t.property.Keys + {freshId}
      && (forall p :: p in t.property ==> r.after.property[p] == t.property[p])
      && OwnedBy(r.after.property[freshId], auth.uid)
      && r.after.property[freshId].Keys == FormFields + {OwnerField}
      && (forall k :: k in FormFields ==> r.after.property[freshId][k] == body[k])
    ensures r.status == 500 ==> r.after.user == t.user
    ensures r.status == 201 ==>
      && r.after.user.Keys == t.user.Keys
      && (forall u :: u in t.user && u != auth.uid ==> r.after.user[u] == t.user[u])
      && r.after.user[auth.uid].properties == t.user[auth.uid].properties + [freshId]
      && r.after.user[auth.uid] == t.user[auth.uid].(properties := r.after.user[auth.uid].properties)
  {
    match auth
    case Rejected => Outcome(500, t)
    case Verified(uid, _, _) =>
      if !(FormFields <= body.Keys) then Outcome(500, t)
      else
        var property := t.property[freshId := NewProperty(body, uid)];
        if uid !in t.user then Outcome(500, t.(property := property))
        else
          var record := t.user[uid];
          Outcome(201, Tables(property, t.user[uid := record.(properties := record.properties + [freshId])]))
  }

  /** What createUser echoes back on success. */
  datatype Echo = Echo(email: string, name: string, photoURL: string)

  /** Response of createUser and the tables it leaves. */
  datatype Registration = Registration(status: nat, echo: Option<Echo>, after: Tables)

  /** POST /api/createUser. A failed token lands in the outer catch block
      (403). The store checks the record synchronously inside `set`, so an
      email, name or photo URL that is `undefined` makes `set` throw into
      the inner catch block: 500, nothing written and nothing echoed.
      Otherwise the caller's user document is SET, replacing any earlier
      one, to the token's email, the profile's name and photo and an empty
      list, and the three values are echoed with 200. */
  function CreateUser(t: Tables, auth: Auth, profile: Profile): (r: Registration)
    ensures r.status == 200 || r.status == 403 || r.status == 500
    ensures r.status == 403 <==> auth.Rejected?
    ensures r.status == 200 <==>
      auth.Verified? && auth.email.Some? && profile.displayName.Some? && profile.photoURL.Some?
    ensures r.status != 200 ==> r.after == t && r.echo == None
    ensures r.status == 200 ==>
      && r.after.property == t.property
      && r.after.user.Keys == t.user.Keys + {auth.uid}
      && (forall u :: u in t.user && u != auth.uid ==> r.after.user[u] == t.user[u])
      && r.after.user[auth.uid].properties == []
      && r.after.user[auth.uid].email == auth.email.value
      && r.after.user[auth.uid].name == profile.displayName.value
      && r.after.user[auth.uid].photoURL == profile.photoURL.value
      && r.echo == Some(Echo(auth.email.value, profile.displayName.value, profile.photoURL.value))
  {
    match auth
    case Rejected => Registration(403, None, t)
    case Verified(uid, email, _) =>
      if email.None? || profile.displayName.None? || profile.photoURL.None? then
        Registration(500, None, t)
      else
        var record := UserRecord(email.value, profile.displayName.value, profile.photoURL.value, []);
        Registration(200, Some(Echo(record.email, record.name, record.photoURL)),
                     t.(user := t.user[uid := record]))
  }
}
