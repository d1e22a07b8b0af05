/** The `users` collection of the backend's MongoDB database as the
    authentication routes see it: documents in insertion order, plus the
    source of fresh document ids that the driver draws on at insert. */
module UserStore {
  import opened Wrappers

  /** Milliseconds since the epoch, as produced by `new Date()`. */
  type Time = nat

  /** One document of the collection.  `password` holds the bcrypt digest
      written at registration, never the plaintext; `updatedAt` is absent
      until the first successful profile update. */
  datatype User = User(
    id: nat,
    email: string,
    firstName: string,
    lastName: string,
    password: string,
    createdAt: Time,
    updatedAt: Option<Time>)

  /** The collection, and the id the next inserted document will receive. */
  datatype Store = Store(users: seq<User>, nextId: nat)

  /** The result of an insert: the new collection and the inserted id. */
  datatype Inserted = Inserted(store: Store, id: nat)

  const Empty: Store := Store([], 0)

  /** The collection the application starts from satisfies the invariant. */
  lemma EmptyWellFormed()
    ensures WellFormed(Empty)
  {
  }

  /** No two documents share an email. */
  ghost predicate UniqueEmails(users: seq<User>) {
    forall i, j :: 0 <= i < j < |users| ==> users[i].email != users[j].email
  }

  /** Every id is below `nextId` and no two documents share an id. */
  ghost predicate FreshIds(s: Store) {
    && (forall i :: 0 <= i < |s.users| ==> s.users[i].id < s.nextId)
    && (forall i, j :: 0 <= i < j < |s.users| ==> s.users[i].id != s.users[j].id)
  }

  /** The invariant every sequence of handler calls keeps. */
  ghost predicate WellFormed(s: Store) {
    UniqueEmails(s.users) && FreshIds(s)
  }

  /** `findOne({ email })`: the position of the first document whose email
      is exactly `email`, or None when there is no such document. */
  function FindOne(users: seq<User>, email: string): (r: Option<nat>)
    ensures r.Some? ==> r.value < |users| && users[r.value].email == email
    ensures r.Some? ==> forall j :: 0 <= j < r.value ==> users[j].email != email
    ensures r.None? <==> forall j :: 0 <= j < |users| ==> users[j].email != email
  {
    if |users| == 0 then None
    else if users[0].email == email then Some(0)
    else
      match FindOne(users[1..], email)
      case None => None
      case Some(i) => Some(i + 1)
  }

  /** `insertOne(doc)`: appends a document carrying a fresh id. */
  function Insert(s: Store, email: string, firstName: string, lastName: string,
                  password: string, createdAt: Time): (r: Inserted)
    ensures |r.store.users| == |s.users| + 1
    ensures r.store.users[..|s.users|] == s.users
    ensures r.store.users[|s.users|]
            == User(r.id, email, firstName, lastName, password, createdAt, None)
    ensures FreshIds(s) ==> forall j :: 0 <= j < |s.users| ==> s.users[j].id != r.id
    ensures FreshIds(s) ==> FreshIds(r.store)
  {
    var doc := User(s.nextId, email, firstName, lastName, password, createdAt, None);
    Inserted(Store(s.users + [doc], s.nextId + 1), s.nextId)
  }

  /** Replaces the document at position `i`, leaving every other one alone. */
  function Replace(s: Store, i: nat, doc: User): (r: Store)
    requires i < |s.users|
    requires doc.id == s.users[i].id && doc.email == s.users[i].email
    ensures |r.users| == |s.users| && r.nextId == s.nextId
    ensures r.users[i] == doc
    ensures forall j :: 0 <= j < |s.users| && j != i ==> r.users[j] == s.users[j]
    ensures WellFormed(s) ==> WellFormed(r)
  {
    Store(s.users[i := doc], s.nextId)
  }
}
