/** The backend request handler: `POST /register` and `POST /login` over a
    users table, plus the fixed method/path dispatch around them. */
module AuthApi {
  import opened Wrappers
  import opened PhpString

  /** The random salt `password_hash` draws; a parameter here. */
  type Salt = nat

  /** `password_hash(p, PASSWORD_DEFAULT)` and `password_verify(p, h)`, as
      function values whose internals the model does not know. */
  datatype Hasher = Hasher(hash: (string, Salt) -> string, verify: (string, string) -> bool)

  /** The one property assumed of the hashing library: a password verifies
      against any hash made from it. */
  ghost predicate Sound(h: Hasher) {
    forall p, salt :: h.verify(p, h.hash(p, salt))
  }

  /** A row of `users`: its primary key and the stored password hash. */
  datatype Row = Row(id: int, hash: string)

  /** The table, keyed by username (the column is UNIQUE), and the next
      AUTOINCREMENT value. */
  datatype Store = Store(users: map<string, Row>, nextId: int)

  /** Ids are positive, below the next AUTOINCREMENT value, and pairwise distinct. */
  predicate WellFormed(s: Store) {
    && s.nextId >= 1
    && (forall u :: u in s.users ==> 1 <= s.users[u].id < s.nextId)
    && (forall u, v :: u in s.users && v in s.users && u != v ==> s.users[u].id != s.users[v].id)
  }

  const EmptyStore := Store(map[], 1)

  datatype Body =
    | NoBody
    | Registered(id: int)
    | LoggedIn(id: int, username: string, message: string)
    | Failed(error: string)

  datatype Response = Response(status: int, body: Body)

  const NoContent := Response(204, NoBody)
  const MissingFields := Response(400, Failed("missing fields"))
  const InvalidCredentials := Response(401, Failed("invalid credentials"))
  const NotFound := Response(404, Failed("not found"))
  const LoginMessage := "Login successful"
  /** The message SQLite's UNIQUE constraint raises through PDO. */
  const DuplicateUsername := "SQLSTATE[23000]: Integrity constraint violation: 19 UNIQUE constraint failed: users.username"

  /** A decoded request: method, URL path, and the two JSON body fields
      (None when absent, null, or the body is not JSON). */
  datatype Request = Request(verb: string, path: string, username: Option<string>, password: Option<string>)

  datatype Endpoint = Preflight | RegisterEndpoint | LoginEndpoint | Unknown

  /** The fixed dispatch: OPTIONS on any path first, then the two POST routes. */
  function Route(verb: string, path: string): (e: Endpoint)
    ensures e == Preflight <==> verb == "OPTIONS"
    ensures e == RegisterEndpoint <==> verb == "POST" && path == "/register"
    ensures e == LoginEndpoint <==> verb == "POST" && path == "/login"
  {
    if verb == "OPTIONS" then Preflight
    else if verb == "POST" && path == "/register" then RegisterEndpoint
    else if verb == "POST" && path == "/login" then LoginEndpoint
    else Unknown
  }

  /** Validated credentials: the trimmed username and the untouched password. */
  datatype Creds = Creds(username: string, password: string)

  /** `trim($body['username'] ?? '')`, `$body['password'] ?? ''`, then
      `!$username || !$password` rejects. */
  function ReadCreds(username: Option<string>, password: Option<string>): (r: Option<Creds>)
    ensures r.None? <==> Falsy(Trim(username.GetOr(""))) || Falsy(password.GetOr(""))
    ensures r.Some? ==> r.value == Creds(Trim(username.GetOr("")), password.GetOr(""))
    ensures r.Some? ==> IsTrimmed(r.value.username) && !Falsy(r.value.username)
  {
    var u := Trim(username.GetOr(""));
    var p := password.GetOr("");
    if Falsy(u) || Falsy(p) then None else Some(Creds(u, p))
  }

  /** A username that is already trimmed and truthy, with a truthy password, passes as is. */
  lemma ReadCredsAccepts(username: string, password: string)
    requires IsTrimmed(username) && !Falsy(username) && !Falsy(password)
    ensures ReadCreds(Some(username), Some(password)) == Some(Creds(username, password))
  {
    TrimOfTrimmed(username);
  }

  /** The `/register` block after validation: hash, then INSERT.
      `fault` is a failure of the INSERT's `execute` other than the UNIQUE
      violation; the `catch` answers it with its message. */
  function Insert(s: Store, h: Hasher, c: Creds, salt: Salt, fault: Option<string>): (r: (Response, Store))
    ensures r.0.status == 200 <==> fault.None? && c.username !in s.users
    ensures r.0.status != 200 ==> r.0.status == 400 && r.1 == s
    ensures r.0.status == 200 ==> r.1.users.Keys == s.users.Keys + {c.username} && r.1.nextId > s.nextId
  {
    if fault.Some? then (Response(400, Failed(fault.value)), s)
    else if c.username in s.users then (Response(400, Failed(DuplicateUsername)), s)
    else
      var row := Row(s.nextId, h.hash(c.password, salt));
      (Response(200, Registered(s.nextId)), Store(s.users[c.username := row], s.nextId + 1))
  }

  /** The `/register` block: the response and the store afterwards. */
  function RegisterStep(s: Store, h: Hasher, username: Option<string>, password: Option<string>,
                        salt: Salt, fault: Option<string>): (r: (Response, Store))
    ensures r.0.status == 200 || r.0.status == 400
    ensures r.0.status == 200 <==> r.0.body.Registered?
    ensures r.1 != s ==> r.0.status == 200
  {
    match ReadCreds(username, password)
    case None => (MissingFields, s)
    case Some(c) => Insert(s, h, c, salt, fault)
  }

  /** The `/login` block: look the trimmed username up exactly, then verify. */
  function LoginStep(s: Store, h: Hasher, username: Option<string>, password: Option<string>): (r: Response)
    ensures r.status == 200 <==>
      exists c :: ReadCreds(username, password) == Some(c)
               && c.username in s.users && h.verify(c.password, s.users[c.username].hash)
    ensures r.status != 200 ==> r == MissingFields || r == InvalidCredentials
    ensures r == MissingFields <==> Falsy(Trim(username.GetOr(""))) || Falsy(password.GetOr(""))
    ensures r.status == 200 ==>
      var u := Trim(username.GetOr(""));
      u in s.users && r.body == LoggedIn(s.users[u].id, u, LoginMessage)
  {
    match ReadCreds(username, password)
    case None => MissingFields
    case Some(c) =>
      if c.username in s.users && h.verify(c.password, s.users[c.username].hash) then
        Response(200, LoggedIn(s.users[c.username].id, c.username, LoginMessage))
      else InvalidCredentials
  }

  /** The whole script for one request. */
  function Serve(s: Store, h: Hasher, req: Request, salt: Salt, fault: Option<string>): (r: (Response, Store))
    ensures r.0.status in {200, 204, 400, 401, 404}
    ensures r.0.status == 204 <==> req.verb == "OPTIONS"
    ensures r.0.status == 404 <==> Route(req.verb, req.path) == Unknown
  {
    match Route(req.verb, req.path)
    case Preflight => (NoContent, s)
    case RegisterEndpoint => RegisterStep(s, h, req.username, req.password, salt, fault)
    case LoginEndpoint => (LoginStep(s, h, req.username, req.password), s)
    case Unknown => (NotFound, s)
  }

  /** Register: missing fields (after trim, `""` or `"0"`) give 400 and leave the table alone. */
  lemma RegisterRejectsMissing(s: Store, h: Hasher, username: Option<string>, password: Option<string>,
                               salt: Salt, fault: Option<string>)
    requires Falsy(Trim(username.GetOr(""))) || Falsy(password.GetOr(""))
    ensures RegisterStep(s, h, username, password, salt, fault) == (MissingFields, s)
  {
  }

  /** Login: missing fields (after trim, `""` or `"0"`) give 400, never the 401. */
  lemma LoginRejectsMissing(s: Store, h: Hasher, username: Option<string>, password: Option<string>)
    requires Falsy(Trim(username.GetOr(""))) || Falsy(password.GetOr(""))
    ensures LoginStep(s, h, username, password) == MissingFields
    ensures LoginStep(s, h, username, password) != InvalidCredentials
  {
  }

  /** A username made only of whitespace is missing. */
  lemma BlankUsernameIsMissing(s: Store, h: Hasher, username: string, password: Option<string>,
                               salt: Salt, fault: Option<string>)
    requires AllTrimChars(username)
    ensures RegisterStep(s, h, Some(username), password, salt, fault) == (MissingFields, s)
    ensures LoginStep(s, h, Some(username), password) == MissingFields
  {
    TrimBlank(username);
  }

  /** A successful register stores the hash of the untrimmed password under
      the trimmed username, with an id no existing row has; nothing else changes. */
  lemma RegisterSuccess(s: Store, h: Hasher, username: Option<string>, password: Option<string>,
                        salt: Salt, fault: Option<string>)
    requires WellFormed(s)
    ensures var (r, s') := RegisterStep(s, h, username, password, salt, fault);
      r.status == 200 <==>
        (&& !Falsy(Trim(username.GetOr(""))) && !Falsy(password.GetOr(""))
         && fault.None? && Trim(username.GetOr("")) !in s.users)
    ensures var (r, s') := RegisterStep(s, h, username, password, salt, fault);
      var u := Trim(username.GetOr(""));
      r.status == 200 ==>
        && r.body == Registered(s.nextId)
        && s'.users == s.users[u := Row(s.nextId, h.hash(password.GetOr(""), salt))]
        && (forall v :: v in s.users ==> s.users[v].id != s.nextId)
    ensures var (r, s') := RegisterStep(s, h, username, password, salt, fault);
      r.status != 200 ==> s' == s && r.status == 400
  {
  }

  /** Register with a (trimmed) username already in the table fails with the
      store's UNIQUE message whatever the password, and changes nothing. */
  lemma RegisterDuplicate(s: Store, h: Hasher, username: string, password: string, salt: Salt)
    requires !Falsy(Trim(username)) && Trim(username) in s.users && !Falsy(password)
    ensures RegisterStep(s, h, Some(username), Some(password), salt, None)
         == (Response(400, Failed(DuplicateUsername)), s)
  {
  }

  /** Register keeps the table's invariant. */
  lemma RegisterKeepsWellFormed(s: Store, h: Hasher, username: Option<string>, password: Option<string>,
                                salt: Salt, fault: Option<string>)
    requires WellFormed(s)
    ensures WellFormed(RegisterStep(s, h, username, password, salt, fault).1)
  {
    var s' := RegisterStep(s, h, username, password, salt, fault).1;
    if s' != s {
      var c := ReadCreds(username, password).value;
      var row := Row(s.nextId, h.hash(c.password, salt));
      assert c.username !in s.users && s' == Store(s.users[c.username := row], s.nextId + 1);
      forall u | u in s'.users
        ensures 1 <= s'.users[u].id < s'.nextId
      {
        if u != c.username {
          assert s'.users[u] == s.users[u];
        }
      }
      forall u, v | u in s'.users && v in s'.users && u != v
        ensures s'.users[u].id != s'.users[v].id
      {
        if u == c.username {
          assert s'.users[v] == s.users[v];
        } else if v == c.username {
          assert s'.users[u] == s.users[u];
        } else {
          assert s'.users[u] == s.users[u] && s'.users[v] == s.users[v];
        }
      }
    }
  }

  /** Unknown username and wrong password give the same 401 response. */
  lemma LoginFailuresAlike(s: Store, h: Hasher, known: string, unknown: string, wrong: string)
    requires !Falsy(Trim(known)) && Trim(known) in s.users && Trim(unknown) !in s.users
    requires !Falsy(wrong) && !h.verify(wrong, s.users[Trim(known)].hash)
    requires !Falsy(Trim(unknown))
    ensures LoginStep(s, h, Some(unknown), Some(wrong)) == InvalidCredentials
    ensures LoginStep(s, h, Some(known), Some(wrong)) == InvalidCredentials
  {
  }

  /** Round trip: after a successful register(u, p), a login with p and any
      username that trims to the same name succeeds with the new id. */
  lemma RegisterThenLogin(s: Store, h: Hasher, username: string, password: string, salt: Salt,
                          fault: Option<string>, again: string)
    requires Sound(h)
    requires RegisterStep(s, h, Some(username), Some(password), salt, fault).0.status == 200
    requires Trim(again) == Trim(username)
    ensures LoginStep(RegisterStep(s, h, Some(username), Some(password), salt, fault).1,
                      h, Some(again), Some(password))
         == Response(200, LoggedIn(s.nextId, Trim(username), LoginMessage))
  {
    var u := Trim(username);
    var c := ReadCreds(Some(username), Some(password));
    assert c == Some(Creds(u, password));
    var s' := RegisterStep(s, h, Some(username), Some(password), salt, fault).1;
    assert s'.users == s.users[u := Row(s.nextId, h.hash(password, salt))];
    assert ReadCreds(Some(again), Some(password)) == c;
    assert h.verify(password, h.hash(password, salt));
  }

  /** After a successful register, a second register of a name that trims to
      the same username fails as a duplicate. */
  lemma RegisterTwice(s: Store, h: Hasher, username: string, password: string, salt: Salt,
                      fault: Option<string>, again: string, other: string, salt2: Salt)
    requires RegisterStep(s, h, Some(username), Some(password), salt, fault).0.status == 200
    requires Trim(again) == Trim(username) && !Falsy(other)
    ensures var s' := RegisterStep(s, h, Some(username), Some(password), salt, fault).1;
      RegisterStep(s', h, Some(again), Some(other), salt2, None) == (Response(400, Failed(DuplicateUsername)), s')
  {
    var s' := RegisterStep(s, h, Some(username), Some(password), salt, fault).1;
    assert Trim(username) in s'.users;
    RegisterDuplicate(s', h, again, other, salt2);
  }

  /** Only a successful register changes the store; every other request,
      login included, leaves it as it was. */
  lemma OnlyRegisterWrites(s: Store, h: Hasher, req: Request, salt: Salt, fault: Option<string>)
    ensures var (r, s') := Serve(s, h, req, salt, fault);
      s' != s ==> Route(req.verb, req.path) == RegisterEndpoint && r.status == 200
    ensures req.verb == "OPTIONS" ==> Serve(s, h, req, salt, fault) == (NoContent, s)
    ensures Route(req.verb, req.path) == Unknown ==> Serve(s, h, req, salt, fault) == (NotFound, s)
  {
  }

  /** The alice example: register, duplicate register, good and bad logins. */
  lemma AliceScenario(h: Hasher, salt1: Salt, salt2: Salt)
    requires Sound(h)
    requires !h.verify("wrong", h.hash("secret1", salt1))
    ensures var (r1, s1) := RegisterStep(EmptyStore, h, Some("alice"), Some("secret1"), salt1, None);
      var (r2, s2) := RegisterStep(s1, h, Some("alice"), Some("other"), salt2, None);
      && r1 == Response(200, Registered(1))
      && r2 == Response(400, Failed(DuplicateUsername)) && s2 == s1
      && LoginStep(s2, h, Some("alice"), Some("secret1")) == Response(200, LoggedIn(1, "alice", LoginMessage))
      && LoginStep(s2, h, Some("alice"), Some("wrong")) == InvalidCredentials
  {
    ReadCredsAccepts("alice", "secret1");
    ReadCredsAccepts("alice", "other");
    ReadCredsAccepts("alice", "wrong");
    var hash := h.hash("secret1", salt1);
    var s1 := Store(map["alice" := Row(1, hash)], 2);
    assert RegisterStep(EmptyStore, h, Some("alice"), Some("secret1"), salt1, None)
        == (Response(200, Registered(1)), s1);
    assert RegisterStep(s1, h, Some("alice"), Some("other"), salt2, None)
        == (Response(400, Failed(DuplicateUsername)), s1);
    assert h.verify("secret1", hash);
  }

  /** The script's state across requests: the users table and its AUTOINCREMENT counter. */
  class AuthService {
    var users: map<string, Row>
    var nextId: int
    const hasher: Hasher

    function State(): Store
      reads this
    {
      Store(users, nextId)
    }

    ghost predicate Valid()
      reads this
    {
      WellFormed(State())
    }

    /** A freshly migrated, empty table. */
    constructor (hasher: Hasher)
      ensures Valid() && State() == EmptyStore && this.hasher == hasher
    {
      users := map[];
      nextId := 1;
      this.hasher := hasher;
    }

    /** `POST /register`: the INSERT updates the table in place. */
    method Register(username: Option<string>, password: Option<string>, salt: Salt, fault: Option<string>)
      returns (resp: Response)
      requires Valid()
      modifies this
      ensures Valid()
      ensures resp == RegisterStep(old(State()), hasher, username, password, salt, fault).0
      ensures State() == RegisterStep(old(State()), hasher, username, password, salt, fault).1
    {
      ghost var before := State();
      var creds := ReadCreds(username, password);
      if creds.None? {
        resp := MissingFields;
      } else {
        var name := creds.value.username;
        var hash := hasher.hash(creds.value.password, salt);
        if fault.Some? {
          resp := Response(400, Failed(fault.value));
        } else if name in users {
          resp := Response(400, Failed(DuplicateUsername));
        } else {
          users := users[name := Row(nextId, hash)];
          resp := Response(200, Registered(nextId));
          nextId := nextId + 1;
        }
      }
      assert (resp, State()) == RegisterStep(before, hasher, username, password, salt, fault);
      RegisterKeepsWellFormed(before, hasher, username, password, salt, fault);
    }

    /** `POST /login`: reads the table only. */
    method Login(username: Option<string>, password: Option<string>) returns (resp: Response)
      ensures resp == LoginStep(State(), hasher, username, password)
    {
      var creds := ReadCreds(username, password);
      if creds.None? {
        return MissingFields;
      }
      var name := creds.value.username;
      if name in users && hasher.verify(creds.value.password, users[name].hash) {
        resp := Response(200, LoggedIn(users[name].id, name, LoginMessage));
      } else {
        resp := InvalidCredentials;
      }
    }

    /** One request through the script. */
    method Handle(req: Request, salt: Salt, fault: Option<string>) returns (resp: Response)
      requires Valid()
      modifies this
      ensures Valid()
      ensures (resp, State()) == Serve(old(State()), hasher, req, salt, fault)
    {
      if req.verb == "OPTIONS" {
        return NoContent;
      }
      if req.verb == "POST" && req.path == "/register" {
        resp := Register(req.username, req.password, salt, fault);
      } else if req.verb == "POST" && req.path == "/login" {
        resp := Login(req.username, req.password);
      } else {
        resp := NotFound;
      }
    }
  }
}
