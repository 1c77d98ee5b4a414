/** The store as the handlers of server.js see it: two collections that the
    state-changing handlers read, modify and write back one step at a time.
    Each method follows its handler's steps and is proved to leave exactly
    the status and tables that the handler's transition in `Handlers` gives. */
module Server {
  import opened Documents
  import opened Lists
  import opened Handlers

  class Store {
    var property: map<string, Doc>
    var user: map<string, UserRecord>

    /** The contents of both collections. */
    function Snapshot(): Tables
      reads this
    {
      Tables(property, user)
    }

    constructor ()
      ensures property == map[] && user == map[]
    {
      property := map[];
      user := map[];
    }

    /** PUT /api/user/property (server.js:35-58). */
    method Update(auth: Auth, propertyId: string, submitted: Option<Doc>) returns (status: nat)
      modifies this
      ensures Outcome(status, Snapshot()) == UpdateProperty(old(Snapshot()), auth, propertyId, submitted)
    {
      if auth.Rejected? {
        return 400;
      }
      var userId := auth.uid;
      if propertyId !in property {
        // `propertySnapshot.data()` is undefined: reading `ownerId` throws
        return 400;
      }
      var stored := property[propertyId];
      if !OwnedBy(stored, userId) {
        return 403;
      }
      if submitted.None? {
        // `verifiedProp.ownerId = userId` on a missing body throws
        return 400;
      }
      var verifiedProp := submitted.value;
      verifiedProp := verifiedProp[OwnerField := Str(userId)];
      property := property[propertyId := Merge(stored, verifiedProp)];
      return 200;
    }

    /** DELETE /api/property (server.js:101-136). */
    method Delete(auth: Auth, propertyId: string) returns (status: nat)
      modifies this
      ensures Outcome(status, Snapshot()) == DeleteProperty(old(Snapshot()), auth, propertyId)
    {
      if auth.Rejected? {
        return 500;
      }
      var userId := auth.uid;
      if propertyId !in property {
        return 404;
      }
      var propertyData := property[propertyId];
      if !(OwnedBy(propertyData, userId) || auth.admin) {
        return 401;
      }
      property := property - {propertyId};
      // the caller's user document, whoever owned the property
      if userId in user {
        var userData := user[userId];
        var found, properties := SpliceOut(userData.properties, propertyId);
        if found {
          user := user[userId := userData.(properties := properties)];
        }
      }
      return 200;
    }

    /** POST /api/property (server.js:141-194); `freshId` is the id the store
        assigns in `add`. */
    method Create(auth: Auth, body: Doc, freshId: string) returns (status: nat)
      requires freshId !in property
      modifies this
      ensures Outcome(status, Snapshot()) == CreateProperty(old(Snapshot()), auth, body, freshId)
    {
      if auth.Rejected? {
        return 500;
      }
      var uid := auth.uid;
      if !(FormFields <= body.Keys) {
        // an `undefined` field: `add` refuses the document
        return 500;
      }
      property := property[freshId := NewProperty(body, uid)];
      if uid !in user {
        // `user.data()` is undefined: reading `properties` throws
        return 500;
      }
      var properties := user[uid].properties;
      var newPropertiesList := properties + [freshId];
      user := user[uid := user[uid].(properties := newPropertiesList)];
      return 201;
    }

    /** POST /api/createUser (server.js:197-236); `profile` is what
        `getUser(uid)` reports. */
    method CreateUser(auth: Auth, profile: Profile) returns (status: nat, echo: Option<Echo>)
      modifies this
      ensures Registration(status, echo, Snapshot()) == Handlers.CreateUser(old(Snapshot()), auth, profile)
    {
      if auth.Rejected? {
        return 403, None;
      }
      var uid := auth.uid;
      var email := auth.email;
      var name := profile.displayName;
      var photoURL := profile.photoURL;
      if email.None? || name.None? || photoURL.None? {
        // `set` refuses an `undefined` field before anything is written
        return 500, None;
      }
      user := user[uid := UserRecord(email.value, name.value, photoURL.value, [])];
      return 200, Some(Echo(email.value, name.value, photoURL.value));
    }
  }

  /** `const index = properties.indexOf(propertyId); if (index > -1)
      properties.splice(index, 1);` on a user's list: `found` tells whether
      the id was there and so whether the list changed. */
  method SpliceOut(properties: seq<string>, propertyId: string) returns (found: bool, rest: seq<string>)
    ensures found <==> propertyId in properties
    ensures rest == SpliceIndexOf(properties, propertyId)
  {
    rest := properties;
    var index := IndexOf(properties, propertyId);
    found := index > -1;
    if found {
      rest := Splice(properties, index);
    }
  }

  /** A session against an empty store: register, add a listing, have another
      user try to change it, then delete it. */
  method Session(form: Doc, change: Doc, newId: string)
    requires FormFields <= form.Keys
  {
    var store := new Store();
    var alice := Verified("u1", Some("a@b.com"), false);
    var bob := Verified("u2", Some("c@d.com"), false);

    var status, echo := store.CreateUser(bob, Profile(Some("Bob"), None));
    assert status == 500 && echo == None && store.user == map[];

    status, echo := store.CreateUser(alice, Profile(Some("Alice"), Some("alice.png")));
    assert status == 200 && store.user["u1"].properties == [];

    status := store.Create(alice, form, newId);
    assert status == 201;
    assert OwnedBy(store.property[newId], "u1");
    assert store.user["u1"].properties == [newId];

    var before := store.Snapshot();
    status := store.Update(bob, newId, Some(change));
    assert status == 403 && store.Snapshot() == before;

    var listing := ListProperties(store.Snapshot(), alice);
    assert listing.status == 200 && |listing.entries| == 1;
    assert listing.entries[0] == GetProperty(store.property, newId);

    status := store.Delete(alice, newId);
    assert status == 200 && newId !in store.property;
    assert store.user["u1"].properties == [];

    status := store.Delete(alice, newId);
    assert status == 404;
  }
}
