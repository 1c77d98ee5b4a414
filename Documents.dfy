/** The documents the API keeps in its two collections, `property` and `user`,
    and what a verified identity token yields. */
module Documents {

  datatype Option<T> = None | Some(value: T)

  /** A JSON value as the document store holds it (numbers are integers here). */
  datatype Value = Null | Bool(b: bool) | Num(n: int) | Str(s: string) | Arr(items: seq<Value>)

  /** A document: its top-level fields by name. */
  type Doc = map<string, Value>

  /** A document of the `user` collection, keyed by the user's uid. */
  datatype UserRecord = UserRecord(email: string, name: string, photoURL: string, properties: seq<string>)

  /** The whole store: the `property` collection and the `user` collection. */
  datatype Tables = Tables(property: map<string, Doc>, user: map<string, UserRecord>)

  /** The result of `verifyIdToken`: either it throws, or it decodes the token
      to the caller's uid, email (None when the token carries none, which
      JavaScript reads as `undefined`) and `admin` custom claim. */
  datatype Auth = Rejected | Verified(uid: string, email: Option<string>, admin: bool)

  /** What `getUser(uid)` reports of the caller's identity record; an unset
      display name or photo URL is None (`undefined`). */
  datatype Profile = Profile(displayName: Option<string>, photoURL: Option<string>)

  const OwnerField: string := "ownerId"
  const IdField: string := "id"

  /** `data.ownerId === uid`: strict equality, so a stored owner that is not a
      string never matches, and a string one matches only the same uid. */
  predicate OwnedBy(d: Doc, uid: string): (r: bool)
    ensures r <==> OwnerField in d && d[OwnerField].Str? && d[OwnerField].s == uid
  {
    OwnerField in d && d[OwnerField] == Str(uid)
  }

  lemma OwnerIsUnique(d: Doc, u: string, v: string)
    requires OwnedBy(d, u) && OwnedBy(d, v)
    ensures u == v
  {
    assert Str(u).s == Str(v).s;
  }

  /** `snapshot.data()`, spread into an object literal: the stored fields, or
      no field at all when the document is absent (spreading `undefined`). */
  function Fields(collection: map<string, Doc>, id: string): (d: Doc)
    ensures id in collection ==> d == collection[id]
    ensures id !in collection ==> d.Keys == {}
  {
    if id in collection then collection[id] else map[]
  }

  /** `{...d, id}`: the fields of `d` with `id` set last, so it wins. */
  function WithId(d: Doc, id: string): (r: Doc)
    ensures r.Keys == d.Keys + {IdField}
    ensures r[IdField] == Str(id)
    ensures forall k :: k in d && k != IdField ==> r[k] == d[k]
  {
    d[IdField := Str(id)]
  }

  /** The store's `update(patch)`: a shallow merge in which the patch wins. */
  function Merge(d: Doc, patch: Doc): (r: Doc)
    ensures r.Keys == d.Keys + patch.Keys
    ensures forall k :: k in patch ==> r[k] == patch[k]
    ensures forall k :: k in d && k !in patch ==> r[k] == d[k]
  {
    d + patch
  }
}
