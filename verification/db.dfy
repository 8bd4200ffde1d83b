/** The three collections the core touches, as in-memory sequences in
    insertion order, and the one lookup the signin handler performs. */
module Db {
  import opened Common

  /** A `userModel` document; `password` holds the bcrypt digest. */
  datatype UserRecord = UserRecord(
    id: string, email: string, password: string, firstName: string, lastName: string)

  /** A `purchaseModel` document linking a user to a course. */
  datatype Purchase = Purchase(id: string, userId: string, courseId: string)

  /** A `courseModel` document. */
  datatype Course = Course(
    id: string, title: string, description: string, price: int, imageUrl: string,
    creatorId: string)

  /** `store[k]` is the first record whose email is `email`. */
  predicate FirstWithEmail(store: seq<UserRecord>, email: string, k: int)
  {
    && 0 <= k < |store|
    && store[k].email == email
    && forall j :: 0 <= j < k ==> store[j].email != email
  }

  /** `userModel.findOne({ email })`: the first record with that email, or
      `null` when there is none. */
  function FindOne(store: seq<UserRecord>, email: string): (r: Option<UserRecord>)
    ensures r.None? <==> forall k :: 0 <= k < |store| ==> store[k].email != email
    ensures r.Some? ==> exists k :: FirstWithEmail(store, email, k) && store[k] == r.value
  {
    if |store| == 0 then None
    else if store[0].email == email then
      assert FirstWithEmail(store, email, 0);
      Some(store[0])
    else
      var r := FindOne(store[1..], email);
      if r.Some? then
        var k :| FirstWithEmail(store[1..], email, k) && store[1..][k] == r.value;
        assert FirstWithEmail(store, email, k + 1);
        r
      else r
  }
}
