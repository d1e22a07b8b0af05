/** The `/api/auth` router of the backend: the `/register`, `/login` and
    `/update` handlers as pure transitions of the users collection.  The
    foreign libraries (express-validator's email check, bcryptjs, jwt) are
    parameters; the salt and the clock are supplied per call. */
module AuthRoute {
  import opened Wrappers
  import opened UserStore

  /** The foreign collaborators, kept uninterpreted.
      `isEmail` is express-validator's `isEmail()`, `hash(password, salt)` is
      `bcryptjs.hash`, `compare(password, digest)` is `bcryptjs.compare`. */
  datatype Deps = Deps(
    isEmail: string -> bool,
    hash: (string, string) -> string,
    compare: (string, string) -> bool)

  /** The payload of a signed JWT: `{ user: { id } }` and, when present,
      the `expiresIn` option in seconds.  Signing itself is left abstract. */
  datatype Token = Token(userId: nat, expiresIn: Option<nat>)

  /** `expiresIn: '1h'`, in seconds. */
  const OneHour: nat := 3600

  /** One entry of express-validator's `errors.array()`: its `type` key
      (`kind` here, always "field"), the field's value, the message, the
      field's path, and where it was read from (always "body"). */
  datatype FieldError = FieldError(kind: string, value: string, msg: string, path: string, location: string)

  /** The JSON bodies the three handlers send. */
  datatype Body =
    | ValidationErrors(errors: seq<FieldError>)
    | MessageBody(message: string)
    | ErrorBody(error: string)
    | Registered(authtoken: Token, email: string)
    | LoggedIn(authtoken: Token, userName: string, userEmail: string)
    | Updated(authtoken: Token)

  datatype Response = Response(status: nat, body: Body)

  /** What a handler call produces: the response and the collection after it. */
  datatype Step = Step(response: Response, store: Store)

  const EmailTaken := "Email is already taken"
  const UserNotFound := "User not found"
  const WrongPassword := "Wrong pasword"
  const MissingHeader := "Email not found in the request headers"

  // ---------------------------------------------------------------------
  // Registration validation
  // ---------------------------------------------------------------------

  /** The body of `POST /register`; an absent field reads as "". */
  datatype RegisterRequest = RegisterRequest(
    email: string, password: string, firstName: string, lastName: string)

  /** The four validation chains attached to `/register`. */
  datatype Rule = EmailRule | PasswordRule | FirstNameRule | LastNameRule

  /** The chains in the order they are declared, and therefore run. */
  const RegisterRules: seq<Rule> := [EmailRule, PasswordRule, FirstNameRule, LastNameRule]

  const MinPasswordLength: nat := 6

  function Path(rule: Rule): string {
    match rule
    case EmailRule => "email"
    case PasswordRule => "password"
    case FirstNameRule => "firstName"
    case LastNameRule => "lastName"
  }

  function Msg(rule: Rule): string {
    match rule
    case EmailRule => "Invalid email address"
    case PasswordRule => "Password must be at least 6 characters long"
    case FirstNameRule => "First name is required"
    case LastNameRule => "Last name is required"
  }

  function FieldValue(rule: Rule, req: RegisterRequest): string {
    match rule
    case EmailRule => req.email
    case PasswordRule => req.password
    case FirstNameRule => req.firstName
    case LastNameRule => req.lastName
  }

  /** Whether the field checked by `rule` satisfies it. */
  predicate Passes(deps: Deps, rule: Rule, req: RegisterRequest) {
    match rule
    case EmailRule => deps.isEmail(req.email)
    case PasswordRule => |req.password| >= MinPasswordLength
    case FirstNameRule => |req.firstName| > 0
    case LastNameRule => |req.lastName| > 0
  }

  /** The error a failing `rule` reports. */
  function ErrorFor(rule: Rule, req: RegisterRequest): FieldError {
    FieldError("field", FieldValue(rule, req), Msg(rule), Path(rule), "body")
  }

  /** Distinct rules report distinct errors, since their paths differ. */
  lemma ErrorForInjective(req: RegisterRequest)
    ensures forall r1, r2 :: ErrorFor(r1, req) == ErrorFor(r2, req) ==> r1 == r2
  {
    forall r1, r2 | ErrorFor(r1, req) == ErrorFor(r2, req) ensures r1 == r2 {
      assert Path(r1) == Path(r2);
    }
  }

  /** Runs every rule and collects one error per failing rule, in rule order. */
  function Validate(deps: Deps, rules: seq<Rule>, req: RegisterRequest): (errs: seq<FieldError>)
    ensures |errs| <= |rules|
    ensures forall rule :: ErrorFor(rule, req) in errs <==> rule in rules && !Passes(deps, rule, req)
    ensures errs == [] <==> forall rule :: rule in rules ==> Passes(deps, rule, req)
  {
    if |rules| == 0 then []
    else
      var rest := Validate(deps, rules[1..], req);
      ErrorForInjective(req);
      assert forall rule :: rule in rules <==> rule == rules[0] || rule in rules[1..];
      if Passes(deps, rules[0], req) then rest else [ErrorFor(rules[0], req)] + rest
  }

  /** All four registration rules hold. */
  predicate RegisterValid(deps: Deps, req: RegisterRequest) {
    && deps.isEmail(req.email)
    && |req.password| >= MinPasswordLength
    && |req.firstName| > 0
    && |req.lastName| > 0
  }

  /** Validation of `/register` reports nothing exactly when all four rules
      hold, and otherwise reports every failing rule's error, in the order
      the rules are declared. */
  lemma RegisterValidation(deps: Deps, req: RegisterRequest)
    ensures Validate(deps, RegisterRules, req) == [] <==> RegisterValid(deps, req)
    ensures |Validate(deps, RegisterRules, req)| <= 4
    ensures ErrorFor(EmailRule, req) in Validate(deps, RegisterRules, req) <==> !deps.isEmail(req.email)
    ensures ErrorFor(PasswordRule, req) in Validate(deps, RegisterRules, req) <==> |req.password| < MinPasswordLength
    ensures ErrorFor(FirstNameRule, req) in Validate(deps, RegisterRules, req) <==> req.firstName == []
    ensures ErrorFor(LastNameRule, req) in Validate(deps, RegisterRules, req) <==> req.lastName == []
  {
    var errs := Validate(deps, RegisterRules, req);
    assert EmailRule in RegisterRules && PasswordRule in RegisterRules;
    assert FirstNameRule in RegisterRules && LastNameRule in RegisterRules;
    if errs == [] {
      assert Passes(deps, EmailRule, req) && Passes(deps, PasswordRule, req);
      assert Passes(deps, FirstNameRule, req) && Passes(deps, LastNameRule, req);
    }
  }

  /** The error list a single rule contributes: nothing when it passes. */
  function ErrorIf(passes: bool, e: FieldError): seq<FieldError> {
    if passes then [] else [e]
  }

  /** Every reported error is the error of a rule in `rules` that fails. */
  lemma {:induction false} ValidateReportsOnlyFailures(deps: Deps, rules: seq<Rule>, req: RegisterRequest)
    ensures forall e :: e in Validate(deps, rules, req) ==>
              exists rule :: rule in rules && !Passes(deps, rule, req) && e == ErrorFor(rule, req)
  {
    if |rules| > 0 {
      ValidateReportsOnlyFailures(deps, rules[1..], req);
      forall e | e in Validate(deps, rules, req)
        ensures exists rule :: rule in rules && !Passes(deps, rule, req) && e == ErrorFor(rule, req)
      {
        if e in Validate(deps, rules[1..], req) {
          var rule :| rule in rules[1..] && !Passes(deps, rule, req) && e == ErrorFor(rule, req);
          assert rule in rules;
        } else {
          assert rules[0] in rules && !Passes(deps, rules[0], req) && e == ErrorFor(rules[0], req);
        }
      }
    }
  }

  /** When no rule is listed twice, no error is reported twice. */
  lemma {:induction false} ValidateNoDuplicates(deps: Deps, rules: seq<Rule>, req: RegisterRequest)
    requires forall i, j :: 0 <= i < j < |rules| ==> rules[i] != rules[j]
    ensures forall i, j :: 0 <= i < j < |Validate(deps, rules, req)| ==>
              Validate(deps, rules, req)[i] != Validate(deps, rules, req)[j]
  {
    if |rules| > 0 {
      var rest := rules[1..];
      assert forall i, j :: 0 <= i < j < |rest| ==> rest[i] != rest[j] by {
        forall i, j | 0 <= i < j < |rest| ensures rest[i] != rest[j] {
          assert rest[i] == rules[i + 1] && rest[j] == rules[j + 1];
        }
      }
      ValidateNoDuplicates(deps, rest, req);
      if !Passes(deps, rules[0], req) {
        assert rules[0] !in rest;
        assert ErrorFor(rules[0], req) !in Validate(deps, rest, req);
        ValidateStep(deps, rules, req);
      }
    }
  }

  /** One step of `Validate`: the first rule's error, if any, comes first. */
  lemma ValidateStep(deps: Deps, rules: seq<Rule>, req: RegisterRequest)
    requires |rules| > 0
    ensures Validate(deps, rules, req)
            == ErrorIf(Passes(deps, rules[0], req), ErrorFor(rules[0], req)) + Validate(deps, rules[1..], req)
  {
  }

  /** `Validate` over `rules` preceded by `rule`. */
  lemma ValidateCons(deps: Deps, rule: Rule, rules: seq<Rule>, req: RegisterRequest)
    ensures Validate(deps, [rule] + rules, req)
            == ErrorIf(Passes(deps, rule, req), ErrorFor(rule, req)) + Validate(deps, rules, req)
  {
    ValidateStep(deps, [rule] + rules, req);
    assert ([rule] + rules)[1..] == rules;
  }

  /** The email rule comes first, followed by the other three. */
  lemma RegisterRulesHead()
    ensures [EmailRule] + [PasswordRule, FirstNameRule, LastNameRule] == RegisterRules
  {
  }

  /** The errors of the first-name and last-name rules, in order. */
  lemma ValidateNames(deps: Deps, req: RegisterRequest)
    ensures Validate(deps, [FirstNameRule, LastNameRule], req)
            == ErrorIf(Passes(deps, FirstNameRule, req), ErrorFor(FirstNameRule, req))
             + ErrorIf(Passes(deps, LastNameRule, req), ErrorFor(LastNameRule, req))
  {
    var e3 := ErrorIf(Passes(deps, LastNameRule, req), ErrorFor(LastNameRule, req));
    ValidateCons(deps, LastNameRule, [], req);
    assert [LastNameRule] + [] == [LastNameRule];
    assert e3 + [] == e3;
    ValidateCons(deps, FirstNameRule, [LastNameRule], req);
    assert [FirstNameRule] + [LastNameRule] == [FirstNameRule, LastNameRule];
  }

  /** The errors of the password, first-name and last-name rules, in order. */
  lemma ValidateAfterEmail(deps: Deps, req: RegisterRequest)
    ensures Validate(deps, [PasswordRule, FirstNameRule, LastNameRule], req)
            == ErrorIf(Passes(deps, PasswordRule, req), ErrorFor(PasswordRule, req))
             + (ErrorIf(Passes(deps, FirstNameRule, req), ErrorFor(FirstNameRule, req))
             + ErrorIf(Passes(deps, LastNameRule, req), ErrorFor(LastNameRule, req)))
  {
    ValidateNames(deps, req);
    ValidateCons(deps, PasswordRule, [FirstNameRule, LastNameRule], req);
    assert [PasswordRule] + [FirstNameRule, LastNameRule] == [PasswordRule, FirstNameRule, LastNameRule];
  }

  /** The errors of `/register` are exactly those of the failing rules, in
      the order the rules are declared: email, password, first name, last name. */
  lemma RegisterErrorsInOrder(deps: Deps, req: RegisterRequest)
    ensures Validate(deps, RegisterRules, req)
            == ErrorIf(Passes(deps, EmailRule, req), ErrorFor(EmailRule, req))
             + (ErrorIf(Passes(deps, PasswordRule, req), ErrorFor(PasswordRule, req))
             + (ErrorIf(Passes(deps, FirstNameRule, req), ErrorFor(FirstNameRule, req))
             + ErrorIf(Passes(deps, LastNameRule, req), ErrorFor(LastNameRule, req))))
  {
    ValidateAfterEmail(deps, req);
    ValidateCons(deps, EmailRule, [PasswordRule, FirstNameRule, LastNameRule], req);
    RegisterRulesHead();
  }

  // ---------------------------------------------------------------------
  // The three handlers
  // ---------------------------------------------------------------------

  /** `POST /register`: validation, then the duplicate-email check, then the
      insert of the hashed password and a token that expires in one hour. */
  function Register(s: Store, req: RegisterRequest, deps: Deps, salt: string, now: Time): (r: Step)
    ensures r.response.status == 400 || r.response.status == 201
    ensures r.response.status == 400
            <==> !RegisterValid(deps, req) || FindOne(s.users, req.email).Some?
    ensures r.response.status == 400 ==> r.store == s
    ensures r.response.status == 201 ==>
              && |r.store.users| == |s.users| + 1
              && r.store.users[..|s.users|] == s.users
    ensures WellFormed(s) ==> WellFormed(r.store)
  {
    var errs := Validate(deps, RegisterRules, req);
    RegisterValidation(deps, req);
    if errs != [] then
      Step(Response(400, ValidationErrors(errs)), s)
    else if FindOne(s.users, req.email).Some? then
      Step(Response(400, MessageBody(EmailTaken)), s)
    else
      var digest := deps.hash(req.password, salt);
      var ins := Insert(s, req.email, req.firstName, req.lastName, digest, now);
      var token := Token(ins.id, Some(OneHour));
      Step(Response(201, Registered(token, req.email)), ins.store)
  }

  /** The body of `POST /login`. */
  datatype LoginRequest = LoginRequest(email: string, password: string)

  /** `POST /login`: lookup by email, then password comparison; never writes. */
  function Login(s: Store, req: LoginRequest, deps: Deps): (r: Step)
    ensures r.store == s
    ensures r.response.status == 200 || r.response.status == 404
    ensures r.response.status == 200
            <==> exists i :: 0 <= i < |s.users| && FindOne(s.users, req.email) == Some(i)
                             && deps.compare(req.password, s.users[i].password)
  {
    match FindOne(s.users, req.email)
    case None =>
      Step(Response(404, ErrorBody(UserNotFound)), s)
    case Some(i) =>
      var user := s.users[i];
      if !deps.compare(req.password, user.password) then
        Step(Response(404, ErrorBody(WrongPassword)), s)
      else
        Step(Response(200, LoggedIn(Token(user.id, None), user.firstName, user.email)), s)
  }

  /** JavaScript truthiness of the `email` request header. */
  predicate HeaderPresent(header: Option<string>) {
    header.Some? && header.value != ""
  }

  /** `PUT /update`: the `email` header names the document, the body's `name`
      becomes its `firstName`, and `updatedAt` is stamped. */
  function Update(s: Store, header: Option<string>, name: string, now: Time): (r: Step)
    ensures r.response.status == 200 || r.response.status == 400 || r.response.status == 404
    ensures r.response.status == 400 <==> !HeaderPresent(header)
    ensures r.response.status != 200 ==> r.store == s
    ensures r.response.status == 200 ==> |r.store.users| == |s.users| && r.store.nextId == s.nextId
    ensures WellFormed(s) ==> WellFormed(r.store)
  {
    if !HeaderPresent(header) then
      Step(Response(400, ErrorBody(MissingHeader)), s)
    else
      var email := header.value;
      match FindOne(s.users, email)
      case None =>
        Step(Response(404, ErrorBody(UserNotFound)), s)
      case Some(i) =>
        var user := s.users[i].(firstName := name, updatedAt := Some(now));
        var s' := Replace(s, i, user);
        Step(Response(200, Updated(Token(s'.users[i].id, None))), s')
  }

  // ---------------------------------------------------------------------
  // Sequential composition
  // ---------------------------------------------------------------------

  /** One request to the router, with the salt and the time it is served at. */
  datatype Call =
    | RegisterCall(reg: RegisterRequest, salt: string, at: Time)
    | LoginCall(login: LoginRequest)
    | UpdateCall(header: Option<string>, name: string, at: Time)

  /** The router's dispatch of one call to its handler. */
  function Handle(s: Store, call: Call, deps: Deps): (r: Step)
    ensures WellFormed(s) ==> WellFormed(r.store)
    ensures |r.store.users| >= |s.users|
    ensures forall j :: 0 <= j < |s.users| ==>
              r.store.users[j].id == s.users[j].id && r.store.users[j].email == s.users[j].email
  {
    match call
    case RegisterCall(req, salt, at) => Register(s, req, deps, salt, at)
    case LoginCall(req) => Login(s, req, deps)
    case UpdateCall(header, name, at) => Update(s, header, name, at)
  }

  /** Serves `calls` one after another, returning the final collection. */
  function Run(s: Store, calls: seq<Call>, deps: Deps): (r: Store)
    ensures WellFormed(s) ==> WellFormed(r)
    ensures |r.users| >= |s.users|
    decreases |calls|
  {
    if |calls| == 0 then s
    else Run(Handle(s, calls[0], deps).store, calls[1..], deps)
  }
}
