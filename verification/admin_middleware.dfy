/** `adminMiddleware` of middleware/admin.js: verifies the `authorization`
    header with the admin secret and either lets the request through with the
    token's `id` as `userId`, or answers 403. */
module AdminAuth {
  import opened Common
  import opened Oracles
  import opened Db
  import opened Http
  import UserRoutes

  const NotSignedInMessage := "You are not signed in"

  /** The parts of an Express request the middleware can see: headers (names
      in lower case, as Node stores them), the parsed body, and the `userId`
      the middleware may set. */
  datatype Request = Request(headers: map<string, string>, body: map<string, string>, userId: Option<string>)

  /** Something observable the middleware does. */
  datatype Event =
    | Library(call: Call)     // a call into jsonwebtoken
    | CalledNext              // `next()`
    | Sent(response: Response) // `res.status(...).json(...)`

  /** The request as the middleware leaves it, what it did, and the exception
      it let escape, if any. */
  datatype Run = Run(request: Request, events: seq<Event>, thrown: Option<string>)

  /** `req.headers.authorization`: the raw header value, prefix and all. */
  function Authorization(req: Request): Option<string>
  {
    if "authorization" in req.headers then Some(req.headers["authorization"]) else None
  }

  /** How often `next` was called. */
  function NextCount(events: seq<Event>): nat
  {
    if |events| == 0 then 0
    else (if events[0].CalledNext? then 1 else 0) + NextCount(events[1..])
  }

  /** How many responses were sent. */
  function SendCount(events: seq<Event>): nat
  {
    if |events| == 0 then 0
    else (if events[0].Sent? then 1 else 0) + SendCount(events[1..])
  }

  /** The middleware. It verifies the raw header value, always with the admin
      secret. If verification throws, the exception escapes: neither `next`
      nor a response. If it yields a truthy payload, `userId` becomes the
      payload's `id` and `next` is called once. Otherwise 403 is sent and the
      request is left alone. Exactly one of `next` and a response happens
      unless verification throws, and no other request field changes. */
  function AdminMiddleware(req: Request, jwt: Jwt, config: Config): (r: Run)
    ensures |r.events| == (if r.thrown.Some? then 1 else 2)
    ensures r.events[0] == Library(VerifyCall(Authorization(req), config.adminSecret))
    ensures forall i :: 0 <= i < |r.events| && r.events[i].Library? ==>
      r.events[i].call == VerifyCall(Authorization(req), config.adminSecret)
    ensures r.thrown.Some? <==> jwt.verify(Authorization(req), config.adminSecret).Raised?
    ensures NextCount(r.events) + SendCount(r.events) == (if r.thrown.None? then 1 else 0)
    ensures NextCount(r.events) == 1 <==>
      var v := jwt.verify(Authorization(req), config.adminSecret);
      v.Decoded? && Truthy(v.payload)
    ensures NextCount(r.events) == 1 ==>
      r.request == req.(userId := IdOf(jwt.verify(Authorization(req), config.adminSecret).payload))
    ensures NextCount(r.events) == 0 ==> r.request == req
    ensures SendCount(r.events) == 1 ==>
      r.events == [Library(VerifyCall(Authorization(req), config.adminSecret)),
                   Sent(Response(403, Message(NotSignedInMessage)))]
    ensures r.request.headers == req.headers && r.request.body == req.body
  {
    var token := Authorization(req);
    var verify := Library(VerifyCall(token, config.adminSecret));
    match jwt.verify(token, config.adminSecret)
    case Raised(reason) => Run(req, [verify], Some(reason))
    case Decoded(decoded) =>
      if Truthy(decoded) then
        PairCounts(verify, CalledNext);
        Run(req.(userId := IdOf(decoded)), [verify, CalledNext], None)
      else
        var denied := Sent(Response(403, Message(NotSignedInMessage)));
        PairCounts(verify, denied);
        Run(req, [verify, denied], None)
  }

  // Unfolding helper: counting over a two-event run, used by the two
  // middleware functions; it states no property of the source.
  lemma PairCounts(a: Event, b: Event)
    ensures NextCount([a, b]) == (if a.CalledNext? then 1 else 0) + (if b.CalledNext? then 1 else 0)
    ensures SendCount([a, b]) == (if a.Sent? then 1 else 0) + (if b.Sent? then 1 else 0)
  {
    assert [a, b][1..] == [b];
    assert [b][1..] == [];
    assert NextCount([b]) == (if b.CalledNext? then 1 else 0) + NextCount([b][1..]);
    assert NextCount([a, b]) == (if a.CalledNext? then 1 else 0) + NextCount([a, b][1..]);
    assert SendCount([b]) == (if b.Sent? then 1 else 0) + SendCount([b][1..]);
    assert SendCount([a, b]) == (if a.Sent? then 1 else 0) + SendCount([a, b][1..]);
  }

  /** The token handed to `jwt.verify` is the `authorization` header value
      exactly as received — a `Bearer ` prefix included — and `undefined`
      when the header is absent. */
  lemma NoPrefixStripping(req: Request, jwt: Jwt, config: Config)
    ensures "authorization" in req.headers ==>
      AdminMiddleware(req, jwt, config).events[0]
      == Library(VerifyCall(Some(req.headers["authorization"]), config.adminSecret))
    ensures "authorization" !in req.headers ==>
      AdminMiddleware(req, jwt, config).events[0] == Library(VerifyCall(None, config.adminSecret))
  {
  }

  /** Running the middleware again on the request it produced repeats the same
      calls and reaches the same request. */
  lemma AdminMiddlewareIdempotent(req: Request, jwt: Jwt, config: Config)
    ensures AdminMiddleware(AdminMiddleware(req, jwt, config).request, jwt, config)
            == AdminMiddleware(req, jwt, config)
  {
  }

  /** The middleware as written, with a jsonwebtoken that throws on a missing
      token (as `jwt.verify(undefined, key)` does): a request without an
      `authorization` header gets no 403 and no `next` — the exception
      escapes and the request is left as it was. */
  lemma MissingHeaderThrows(req: Request, jwt: Jwt, config: Config)
    requires "authorization" !in req.headers
    requires jwt.verify(None, config.adminSecret).Raised?
    ensures AdminMiddleware(req, jwt, config).thrown == Some(jwt.verify(None, config.adminSecret).reason)
    ensures SendCount(AdminMiddleware(req, jwt, config).events) == 0
    ensures NextCount(AdminMiddleware(req, jwt, config).events) == 0
    ensures AdminMiddleware(req, jwt, config).request == req
  {
  }

  /** The middleware with the verification inside `try`/`catch`, so that a
      token jsonwebtoken refuses is answered 403 like a falsy payload. It never
      throws; exactly one of `next` and the 403 happens; `next` happens exactly
      when verification yields a truthy payload, and then `userId` is that
      payload's `id`. */
  function AdminMiddlewareCaught(req: Request, jwt: Jwt, config: Config): (r: Run)
    ensures r.thrown.None?
    ensures |r.events| == 2
    ensures r.events[0] == Library(VerifyCall(Authorization(req), config.adminSecret))
    ensures NextCount(r.events) + SendCount(r.events) == 1
    ensures NextCount(r.events) == 1 <==>
      var v := jwt.verify(Authorization(req), config.adminSecret);
      v.Decoded? && Truthy(v.payload)
    ensures NextCount(r.events) == 1 ==>
      r.request == req.(userId := IdOf(jwt.verify(Authorization(req), config.adminSecret).payload))
    ensures SendCount(r.events) == 1 ==>
      && r.request == req
      && r.events == [Library(VerifyCall(Authorization(req), config.adminSecret)),
                      Sent(Response(403, Message(NotSignedInMessage)))]
  {
    var token := Authorization(req);
    var verify := Library(VerifyCall(token, config.adminSecret));
    var denied := Sent(Response(403, Message(NotSignedInMessage)));
    var v := jwt.verify(token, config.adminSecret);
    if v.Decoded? && Truthy(v.payload) then
      PairCounts(verify, CalledNext);
      Run(req.(userId := IdOf(v.payload)), [verify, CalledNext], None)
    else
      PairCounts(verify, denied);
      Run(req, [verify, denied], None)
  }

  /** A token issued by the user signin never passes the admin middleware when
      the two secrets differ and jsonwebtoken refuses a token under a foreign
      secret: verification throws and `next` is not called; with the
      verification caught, the request is answered 403. */
  lemma UserTokenRefused(email: string, password: string, store: seq<UserRecord>,
                         bcrypt: Bcrypt, jwt: Jwt, config: Config, req: Request)
    requires SecretsSeparate(jwt)
    requires config.adminSecret != config.userSecret
    requires UserRoutes.Signin(email, password, store, bcrypt, jwt, config).Replied?
    requires UserRoutes.Signin(email, password, store, bcrypt, jwt, config).response.body.Token?
    requires Authorization(req)
             == Some(UserRoutes.Signin(email, password, store, bcrypt, jwt, config).response.body.token)
    ensures AdminMiddleware(req, jwt, config).thrown.Some?
    ensures NextCount(AdminMiddleware(req, jwt, config).events) == 0
    ensures AdminMiddleware(req, jwt, config).request == req
    ensures AdminMiddlewareCaught(req, jwt, config).events
            == [Library(VerifyCall(Authorization(req), config.adminSecret)),
                Sent(Response(403, Message(NotSignedInMessage)))]
  {
  }
}
