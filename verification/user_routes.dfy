/** The three handlers of the user router: `POST /signup`, `POST /signin` and
    `GET /purchases`. The store write, bcrypt, jsonwebtoken and the secrets
    module are parameters; every call a handler makes into bcrypt or
    jsonwebtoken is returned in `calls`. */
module UserRoutes {
  import opened Common
  import opened SignupSchema
  import opened Oracles
  import opened Db
  import opened Http

  const InvalidInputMessage := "Invalid input"
  const SignupOkMessage := "Signup Succeeded"
  const SignupErrorMessage := "Error while signing up"
  const BadCredentialsMessage := "Incorrect credentials"

  /** What Node reports when the handler reads `password` of a `null` user. */
  const NullPasswordRead := "Cannot read properties of null (reading 'password')"

  // ---------------------------------------------------------------------------
  // POST /signup

  datatype SignupOutcome = SignupOutcome(response: Response, store: seq<UserRecord>, calls: seq<Call>)

  /** The signup handler. `isEmail` is zod's email check, `newId` the
      identifier the store assigns, `writeFails` whether `userModel.create`
      rejects (the store is unavailable or refuses the document).

      Invalid input is answered 400 with the issues, before any hashing and
      without touching the store. Otherwise the password is hashed with cost
      10; a failed write is answered 500 and leaves the store as it was, and a
      successful one appends exactly one record that carries the digest in
      place of the password and the other fields unchanged. */
  function Signup(body: SignupBody, store: seq<UserRecord>, isEmail: string -> bool,
                  bcrypt: Bcrypt, newId: string, writeFails: bool): (r: SignupOutcome)
    ensures !Valid(body, isEmail) ==>
      && r.response.status == 400
      && r.response.body.InvalidInput?
      && r.response.body.message == InvalidInputMessage
      && r.response.body.errors != []
      && (forall k :: 0 <= k < |r.response.body.errors| ==> Fails(body, isEmail, r.response.body.errors[k]))
      && r.store == store
      && r.calls == []
    ensures Valid(body, isEmail) ==>
      r.calls == [HashCall(body.password.value, SaltRounds)]
    ensures Valid(body, isEmail) && writeFails ==>
      && r.response == Response(500, Message(SignupErrorMessage))
      && r.store == store
    ensures Valid(body, isEmail) && !writeFails ==>
      && r.response == Response(200, Message(SignupOkMessage))
      && |r.store| == |store| + 1
      && r.store[..|store|] == store
      && r.store[|store|] == UserRecord(newId, body.email.value,
                                        bcrypt.hash(body.password.value, SaltRounds),
                                        body.firstName.value, body.lastName.value)
    ensures r.response.status == 200 <==> Valid(body, isEmail) && !writeFails
  {
    var issues := Validate(body, isEmail);
    if issues != [] then
      SignupOutcome(Response(400, InvalidInput(InvalidInputMessage, issues)), store, [])
    else
      var password := body.password.value;
      var hashed := bcrypt.hash(password, SaltRounds);
      var calls := [HashCall(password, SaltRounds)];
      if writeFails then
        SignupOutcome(Response(500, Message(SignupErrorMessage)), store, calls)
      else
        var record := UserRecord(newId, body.email.value, hashed,
                                 body.firstName.value, body.lastName.value);
        SignupOutcome(Response(200, Message(SignupOkMessage)), store + [record], calls)
  }

  // ---------------------------------------------------------------------------
  // POST /signin

  /** A signin either answers or throws out of the handler before answering. */
  datatype SigninOutcome =
    | Replied(response: Response, calls: seq<Call>)
    | Threw(error: string, calls: seq<Call>)

  /** The signin handler as written: the stored digest is read (and compared)
      before the handler tests whether a user was found. An email with no
      record therefore throws a TypeError and no response is sent; a found
      user gets a token signed with the user secret exactly when the password
      matches, and 403 otherwise. */
  function Signin(email: string, password: string, store: seq<UserRecord>,
                  bcrypt: Bcrypt, jwt: Jwt, config: Config): (r: SigninOutcome)
    ensures r.Threw? <==> forall k :: 0 <= k < |store| ==> store[k].email != email
    ensures r.Threw? ==> r.error == NullPasswordRead && r.calls == []
    ensures r.Replied? ==> exists k :: FirstWithEmail(store, email, k)
    ensures forall k :: FirstWithEmail(store, email, k) ==>
      if bcrypt.compare(password, store[k].password) then
        r == Replied(Response(200, Token(jwt.sign(store[k].id, config.userSecret))),
                     [CompareCall(password, store[k].password), SignCall(store[k].id, config.userSecret)])
      else
        r == Replied(Response(403, Message(BadCredentialsMessage)),
                     [CompareCall(password, store[k].password)])
  {
    var user := FindOne(store, email);
    if user.None? then Threw(NullPasswordRead, [])
    else
      var u := user.value;
      var passwordMatch := bcrypt.compare(password, u.password);
      var compared := [CompareCall(password, u.password)];
      if passwordMatch then
        var token := jwt.sign(u.id, config.userSecret);
        Replied(Response(200, Token(token)), compared + [SignCall(u.id, config.userSecret)])
      else
        Replied(Response(403, Message(BadCredentialsMessage)), compared)
  }

  /** The signin handler with the `user` test moved before the digest is read:
      an unknown email is answered like a wrong password. */
  function SigninGuarded(email: string, password: string, store: seq<UserRecord>,
                         bcrypt: Bcrypt, jwt: Jwt, config: Config): (r: SigninOutcome)
    ensures r.Replied?
    ensures r.response.status == 200 <==>
      exists k :: FirstWithEmail(store, email, k) && bcrypt.compare(password, store[k].password)
    ensures r.response.status != 200 ==> r.response == Response(403, Message(BadCredentialsMessage))
    ensures forall k :: FirstWithEmail(store, email, k) && bcrypt.compare(password, store[k].password) ==>
      r.response == Response(200, Token(jwt.sign(store[k].id, config.userSecret)))
  {
    var user := FindOne(store, email);
    if user.Some? && bcrypt.compare(password, user.value.password) then
      var u := user.value;
      Replied(Response(200, Token(jwt.sign(u.id, config.userSecret))),
              [CompareCall(password, u.password), SignCall(u.id, config.userSecret)])
    else
      var compared := if user.Some? then [CompareCall(password, user.value.password)] else [];
      Replied(Response(403, Message(BadCredentialsMessage)), compared)
  }

  /** Signing up and then signing in with the same credentials yields a token
      for the new record, provided no earlier record holds that email and
      bcrypt accepts a password against its own digest. */
  lemma SignupThenSignin(body: SignupBody, store: seq<UserRecord>, isEmail: string -> bool,
                         bcrypt: Bcrypt, jwt: Jwt, config: Config, newId: string)
    requires HashMatches(bcrypt)
    requires Signup(body, store, isEmail, bcrypt, newId, false).response.status == 200
    requires forall k :: 0 <= k < |store| ==> store[k].email != body.email.value
    ensures Signin(body.email.value, body.password.value,
                   Signup(body, store, isEmail, bcrypt, newId, false).store, bcrypt, jwt, config).Replied?
    ensures Signin(body.email.value, body.password.value,
                   Signup(body, store, isEmail, bcrypt, newId, false).store, bcrypt, jwt, config).response
            == Response(200, Token(jwt.sign(newId, config.userSecret)))
  {
  }

  /** The signin as written, on an empty store: whatever the credentials and
      libraries, the handler throws instead of answering, while the guarded
      handler answers 403 "Incorrect credentials". */
  lemma SigninUnknownEmailThrows(email: string, password: string, bcrypt: Bcrypt, jwt: Jwt, config: Config)
    ensures Signin(email, password, [], bcrypt, jwt, config) == Threw(NullPasswordRead, [])
    ensures SigninGuarded(email, password, [], bcrypt, jwt, config).response
            == Response(403, Message(BadCredentialsMessage))
  {
  }

  /** The guarded signin gives an unknown email exactly the response a known
      email with a wrong password gets, so the answer does not reveal which
      emails have an account. */
  lemma GuardedSigninUniformFailure(store: seq<UserRecord>, bcrypt: Bcrypt, jwt: Jwt, config: Config,
                                    unknown: string, pw1: string, known: string, pw2: string, k: int)
    requires forall j :: 0 <= j < |store| ==> store[j].email != unknown
    requires FirstWithEmail(store, known, k) && !bcrypt.compare(pw2, store[k].password)
    ensures SigninGuarded(unknown, pw1, store, bcrypt, jwt, config).response
         == SigninGuarded(known, pw2, store, bcrypt, jwt, config).response
    ensures SigninGuarded(unknown, pw1, store, bcrypt, jwt, config).response.status == 403
  {
  }

  // ---------------------------------------------------------------------------
  // GET /purchases

  /** Some purchase in `purchases` is for course `id` — membership in
      `purchases.map(x => x.courseId)`. */
  predicate Purchased(purchases: seq<Purchase>, id: string)
  {
    exists p :: p in purchases && p.courseId == id
  }

  /** `purchaseModel.find({ userId })`: the purchases of `userId`, each as
      often as it is stored, together with the set of their course
      identifiers. */
  method PurchasesOf(userId: string, purchaseStore: seq<Purchase>)
    returns (mine: seq<Purchase>, ids: set<string>)
    ensures forall p :: multiset(mine)[p] == if p.userId == userId then multiset(purchaseStore)[p] else 0
    ensures forall id :: id in ids <==> Purchased(mine, id)
  {
    mine, ids := [], {};
    var i := 0;
    while i < |purchaseStore|
      invariant 0 <= i <= |purchaseStore|
      invariant forall p :: multiset(mine)[p]
                           == if p.userId == userId then multiset(purchaseStore[..i])[p] else 0
      invariant forall id :: id in ids <==> Purchased(mine, id)
    {
      var p := purchaseStore[i];
      assert purchaseStore[..i + 1] == purchaseStore[..i] + [p];
      if p.userId == userId {
        mine := mine + [p];
        ids := ids + {p.courseId};
      }
      i := i + 1;
    }
    assert purchaseStore[..i] == purchaseStore;
  }

  /** `courseModel.find({ _id: { $in: ids } })`: the courses whose identifier
      is in `ids`, each as often as it is stored. */
  method CoursesAmong(ids: set<string>, courseStore: seq<Course>) returns (data: seq<Course>)
    ensures forall c :: multiset(data)[c] == if c.id in ids then multiset(courseStore)[c] else 0
  {
    data := [];
    var j := 0;
    while j < |courseStore|
      invariant 0 <= j <= |courseStore|
      invariant forall c :: multiset(data)[c] == if c.id in ids then multiset(courseStore[..j])[c] else 0
    {
      var c := courseStore[j];
      assert courseStore[..j + 1] == courseStore[..j] + [c];
      if c.id in ids {
        data := data + [c];
      }
      j := j + 1;
    }
    assert courseStore[..j] == courseStore;
  }

  /** The purchases handler for the authenticated `userId`: the user's
      purchases, then the courses whose identifier is the course of one of
      them. Each purchase of the user is returned as often as it is stored
      and no other; each course is returned as often as it is stored when it
      was purchased, and otherwise not at all. */
  method GetPurchases(userId: string, purchaseStore: seq<Purchase>, courseStore: seq<Course>)
    returns (r: Response)
    ensures r.status == 200 && r.body.PurchaseData?
    ensures forall p :: multiset(r.body.purchases)[p]
                        == if p.userId == userId then multiset(purchaseStore)[p] else 0
    ensures forall c :: multiset(r.body.couresData)[c]
                        == if Purchased(r.body.purchases, c.id) then multiset(courseStore)[c] else 0
    ensures forall p :: p in r.body.purchases ==> p.userId == userId
    ensures forall c :: c in r.body.couresData <==>
      c in courseStore && exists p :: p in purchaseStore && p.userId == userId && p.courseId == c.id
  {
    var mine, ids := PurchasesOf(userId, purchaseStore);
    var data := CoursesAmong(ids, courseStore);
    r := Response(200, PurchaseData(mine, data));
    forall p ensures p in mine <==> p in purchaseStore && p.userId == userId {
      assert p in mine <==> multiset(mine)[p] > 0;
      assert p in purchaseStore <==> multiset(purchaseStore)[p] > 0;
    }
    forall c ensures c in data <==>
      c in courseStore && exists p :: p in purchaseStore && p.userId == userId && p.courseId == c.id
    {
      assert c in data <==> multiset(data)[c] > 0;
      assert c in courseStore <==> multiset(courseStore)[c] > 0;
    }
  }
}
