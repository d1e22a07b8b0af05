/** Properties of the `/api/auth` handlers that relate calls to each other:
    the order of the error checks, what a successful call writes, and how
    registration, login and update see each other's effects. */
module AuthRouteProperties {
  import opened Wrappers
  import opened UserStore
  import opened AuthRoute

  // ---------------------------------------------------------------------
  // Register
  // ---------------------------------------------------------------------

  /** A request breaking any validation rule is answered with 400 and the
      full list of failing rules before the collection is consulted: the
      answer is the same whatever the collection, salt or clock. */
  lemma RegisterInvalidRejected(s: Store, s2: Store, req: RegisterRequest, deps: Deps,
                                salt: string, salt2: string, now: Time, now2: Time)
    requires !RegisterValid(deps, req)
    ensures Register(s, req, deps, salt, now).store == s
    ensures Register(s, req, deps, salt, now).response
            == Response(400, ValidationErrors(Validate(deps, RegisterRules, req)))
    ensures Register(s, req, deps, salt, now).response
            == Register(s2, req, deps, salt2, now2).response
    ensures |Validate(deps, RegisterRules, req)| > 0
  {
    RegisterValidation(deps, req);
  }

  /** A valid request whose email is already stored is answered with 400
      "Email is already taken" and inserts nothing, whatever the salt. */
  lemma RegisterDuplicateRejected(s: Store, req: RegisterRequest, deps: Deps, salt: string, now: Time)
    requires RegisterValid(deps, req)
    requires exists j :: 0 <= j < |s.users| && s.users[j].email == req.email
    ensures Register(s, req, deps, salt, now) == Step(Response(400, MessageBody(EmailTaken)), s)
  {
    RegisterValidation(deps, req);
  }

  /** A valid request for an unused email appends exactly one document,
      holding the request's names, the digest of the password under the
      call's salt, the call's time and a fresh id, and answers 201 with a
      one-hour token for that id and the request's email. */
  lemma RegisterAccepted(s: Store, req: RegisterRequest, deps: Deps, salt: string, now: Time)
    requires RegisterValid(deps, req)
    requires forall j :: 0 <= j < |s.users| ==> s.users[j].email != req.email
    ensures var r := Register(s, req, deps, salt, now);
            && |r.store.users| == |s.users| + 1
            && r.store.users[..|s.users|] == s.users
            && var u := r.store.users[|s.users|];
               && u.email == req.email
               && u.firstName == req.firstName
               && u.lastName == req.lastName
               && u.password == deps.hash(req.password, salt)
               && u.createdAt == now
               && u.updatedAt == None
               && (FreshIds(s) ==> forall j :: 0 <= j < |s.users| ==> s.users[j].id != u.id)
               && r.response == Response(201, Registered(Token(u.id, Some(OneHour)), req.email))
  {
    RegisterValidation(deps, req);
  }

  /** Registering the same email twice: the second call is refused with
      "Email is already taken" and leaves the collection as the first left it. */
  lemma RegisterTwiceRejected(s: Store, req: RegisterRequest, req2: RegisterRequest, deps: Deps,
                              salt: string, salt2: string, now: Time, now2: Time)
    requires Register(s, req, deps, salt, now).response.status == 201
    requires RegisterValid(deps, req2) && req2.email == req.email
    ensures var s1 := Register(s, req, deps, salt, now).store;
            Register(s1, req2, deps, salt2, now2) == Step(Response(400, MessageBody(EmailTaken)), s1)
  {
    var s1 := Register(s, req, deps, salt, now).store;
    assert s1.users[|s.users|].email == req.email;
    RegisterDuplicateRejected(s1, req2, deps, salt2, now2);
  }

  // ---------------------------------------------------------------------
  // Login
  // ---------------------------------------------------------------------

  /** Login never writes; an unknown email gives 404 "User not found", a
      failed comparison 404 "Wrong pasword", and otherwise 200 with a token
      for the stored id (no expiry) and the stored first name and email. */
  lemma LoginOutcome(s: Store, req: LoginRequest, deps: Deps)
    ensures Login(s, req, deps).store == s
    ensures (forall j :: 0 <= j < |s.users| ==> s.users[j].email != req.email) ==>
              Login(s, req, deps).response == Response(404, ErrorBody(UserNotFound))
    ensures forall i :: 0 <= i < |s.users| && FindOne(s.users, req.email) == Some(i) ==>
              Login(s, req, deps).response
              == if deps.compare(req.password, s.users[i].password)
                 then Response(200, LoggedIn(Token(s.users[i].id, None), s.users[i].firstName, s.users[i].email))
                 else Response(404, ErrorBody(WrongPassword))
  {
  }

  /** After a successful registration, logging in with the same email
      succeeds exactly when the password matches the stored digest, and the
      login token names the same id as the registration token. */
  lemma LoginAfterRegister(s: Store, req: RegisterRequest, deps: Deps, salt: string, now: Time,
                           password: string)
    requires Register(s, req, deps, salt, now).response.status == 201
    ensures var r := Register(s, req, deps, salt, now);
            var l := Login(r.store, LoginRequest(req.email, password), deps);
            if deps.compare(password, deps.hash(req.password, salt)) then
              l.response == Response(200, LoggedIn(Token(r.response.body.authtoken.userId, None),
                                                   req.firstName, req.email))
            else
              l.response == Response(404, ErrorBody(WrongPassword))
  {
    var r := Register(s, req, deps, salt, now);
    assert RegisterValid(deps, req) && FindOne(s.users, req.email).None?;
    RegisterAccepted(s, req, deps, salt, now);
    assert r.store.users[|s.users|].email == req.email;
    var found := FindOne(r.store.users, req.email);
    assert found == Some(|s.users|) by {
      assert found.Some?;
    }
  }

  // ---------------------------------------------------------------------
  // Update
  // ---------------------------------------------------------------------

  /** A missing or empty `email` header is answered with 400 before the
      collection is consulted, whatever the body and the collection. */
  lemma UpdateMissingHeader(s: Store, s2: Store, header: Option<string>, name: string, name2: string,
                            now: Time, now2: Time)
    requires !HeaderPresent(header)
    ensures Update(s, header, name, now) == Step(Response(400, ErrorBody(MissingHeader)), s)
    ensures Update(s, header, name, now).response == Update(s2, header, name2, now2).response
  {
  }

  /** A header naming no stored email is answered with 404 "User not found"
      and writes nothing. */
  lemma UpdateUnknownEmail(s: Store, email: string, name: string, now: Time)
    requires email != ""
    requires forall j :: 0 <= j < |s.users| ==> s.users[j].email != email
    ensures Update(s, Some(email), name, now) == Step(Response(404, ErrorBody(UserNotFound)), s)
  {
  }

  /** A successful update changes only `firstName` (to the body's `name`)
      and `updatedAt` (to the call's time) of the first document with the
      header's email; every other field and document is unchanged, and the
      token names that document's id with no expiry. */
  lemma UpdateNarrow(s: Store, email: string, name: string, now: Time, i: nat)
    requires email != ""
    requires i < |s.users| && s.users[i].email == email
    requires forall j :: 0 <= j < i ==> s.users[j].email != email
    ensures var r := Update(s, Some(email), name, now);
            && r.response == Response(200, Updated(Token(s.users[i].id, None)))
            && |r.store.users| == |s.users|
            && r.store.nextId == s.nextId
            && r.store.users[i].firstName == name
            && r.store.users[i].updatedAt == Some(now)
            && r.store.users[i].id == s.users[i].id
            && r.store.users[i].email == s.users[i].email
            && r.store.users[i].lastName == s.users[i].lastName
            && r.store.users[i].password == s.users[i].password
            && r.store.users[i].createdAt == s.users[i].createdAt
            && forall j :: 0 <= j < |s.users| && j != i ==> r.store.users[j] == s.users[j]
  {
    assert FindOne(s.users, email) == Some(i);
  }

  /** After a successful update, a login with that email and a matching
      password reports the new name. */
  lemma LoginAfterUpdate(s: Store, email: string, name: string, now: Time, deps: Deps, password: string)
    requires Update(s, Some(email), name, now).response.status == 200
    ensures var s1 := Update(s, Some(email), name, now).store;
            var i := FindOne(s.users, email).value;
            deps.compare(password, s.users[i].password) ==>
              Login(s1, LoginRequest(email, password), deps).response
              == Response(200, LoggedIn(Token(s.users[i].id, None), name, email))
  {
    var i := FindOne(s.users, email).value;
    UpdateNarrow(s, email, name, now, i);
    var s1 := Update(s, Some(email), name, now).store;
    var found := FindOne(s1.users, email);
    assert found == Some(i) by {
      assert s1.users[i].email == email;
      if found.Some? && found.value != i {
        if found.value < i {
          assert s1.users[found.value] == s.users[found.value];
        }
      }
    }
  }

  // ---------------------------------------------------------------------
  // Sequences of calls
  // ---------------------------------------------------------------------

  /** No handler deletes a document or changes its email: a document with
      a given id and email keeps both through any sequence of calls. */
  lemma {:induction false} RunKeepsDocuments(s: Store, calls: seq<Call>, deps: Deps, j: nat)
    requires j < |s.users|
    ensures j < |Run(s, calls, deps).users|
    ensures Run(s, calls, deps).users[j].id == s.users[j].id
    ensures Run(s, calls, deps).users[j].email == s.users[j].email
    decreases |calls|
  {
    if |calls| > 0 {
      var s1 := Handle(s, calls[0], deps).store;
      RunKeepsDocuments(s1, calls[1..], deps, j);
    }
  }

  /** Once an email is registered, a later registration of it is refused
      however many calls come in between, and emails stay unique. */
  lemma RegisteredStaysTaken(s: Store, calls: seq<Call>, deps: Deps, j: nat, req: RegisterRequest,
                             salt: string, now: Time)
    requires WellFormed(s)
    requires j < |s.users| && s.users[j].email == req.email
    requires RegisterValid(deps, req)
    ensures UniqueEmails(Run(s, calls, deps).users)
    ensures var s' := Run(s, calls, deps);
            Register(s', req, deps, salt, now) == Step(Response(400, MessageBody(EmailTaken)), s')
  {
    var s' := Run(s, calls, deps);
    RunKeepsDocuments(s, calls, deps, j);
    RegisterDuplicateRejected(s', req, deps, salt, now);
  }
}
