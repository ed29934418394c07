/**
 * The dispatch chain of `HttpAdapter.handle_client` in daemon/httpadapter.py:
 * a parse failure closes the connection; then POST /login, POST /register,
 * the cookie-gated GET /index.html and GET /chat_discord.html, the route
 * hook, and finally the static response. The users database, what the hook
 * returned and the cookies the response object already held are parameters;
 * the reply is an abstract value: nothing sent, a response built for a path,
 * or a hand-written reply with its status line, headers and body.
 */
module Adapter {
  import opened Wrappers
  import opened Text
  import opened Dicts
  import opened Forms
  import opened HttpRequest

  datatype User = User(username: string, password: string, role: Option<string>)

  /** db/users.json as read: missing or not JSON, a document without `users`, or its user list. */
  datatype UserDb = Unreadable | NoUserList | Users(list: seq<User>)

  /**
   * What the route hook gave back: a dict, whose `json.dumps` text is `json`
   * (JSON encoding is not part of this model), any other value, or an exception.
   */
  datatype HookResult = DictResult(json: string) | OtherResult | HookRaised

  datatype Reply =
    | Closed                                                 // the connection is closed, nothing is sent
    | Built(path: string, cookies: map<string, string>)      // `resp.build_response(req)` for that path and those cookies
    | Raw(status: string, headers: seq<(string, string)>, body: string)

  /** The reply and, for a successful registration, the user list written back. */
  datatype Handled = Handled(reply: Reply, saved: Option<seq<User>>)

  const FallbackUsers: seq<User> := [User("admin", "password", Some("user"))]

  const LoginFailedBody: string :=
    "<html><body><h1>401 Unauthorized</h1><p>Invalid credentials. <a href='/login.html'>Try again</a> or <a href='/register.html'>Register</a></p></body></html>"
  const MissingFieldsBody: string :=
    "<html><body><h1>Error</h1><p>Username and password required. <a href='/register.html'>Try again</a></p></body></html>"
  const UserExistsBody: string :=
    "<html><body><h1>Error</h1><p>Username already exists. <a href='/register.html'>Try again</a></p></body></html>"
  const LoginFirstBody: string :=
    "<html><body><h1>401 Unauthorized</h1><p>Please <a href='/login.html'>login</a> first.</p></body></html>"
  const ChatLoginBody: string :=
    "<html><body><h1>401 Unauthorized</h1><p>Please <a href='/login.html'>login</a> first.</p><script>window.location.href='/login.html';</script></body></html>"

  const Unauthorized: string := "HTTP/1.1 401 Unauthorized"
  const BadRequest: string := "HTTP/1.1 400 Bad Request"
  const Conflict: string := "HTTP/1.1 409 Conflict"
  const Ok: string := "HTTP/1.1 200 OK"

  // ---------------------------------------------------------------------------
  // Hand-written replies
  // ---------------------------------------------------------------------------

  /** An HTML error reply; the 400 and 409 replies carry no `Connection` header. */
  function HtmlReply(status: string, body: string, close: bool): (r: Reply)
    ensures r.Raw? && r.status == status && r.body == body
    ensures |r.headers| == (if close then 3 else 2) && r.headers[0] == ("Content-Type", "text/html")
  {
    Raw(status, [("Content-Type", "text/html"), ("Content-Length", NatToString(|body|))] +
                (if close then [("Connection", "close")] else []), body)
  }

  /** The reply for a dict returned by a route hook. */
  function JsonReply(json: string): (r: Reply)
    ensures r.Raw? && r.status == Ok && r.body == json && |r.headers| == 6
    ensures r.headers[0] == ("Content-Type", "application/json")
  {
    Raw(Ok, [("Content-Type", "application/json"),
             ("Access-Control-Allow-Origin", "*"),
             ("Access-Control-Allow-Methods", "GET, POST, PUT, DELETE, OPTIONS"),
             ("Access-Control-Allow-Headers", "Content-Type, Authorization"),
             ("Content-Length", NatToString(|json|)),
             ("Connection", "close")], json)
  }

  /** The value of the first header called `name`. */
  function HeaderValue(headers: seq<(string, string)>, name: string): (r: Option<string>)
    ensures r.Some? ==> (name, r.value) in headers
    ensures r.None? ==> forall i :: 0 <= i < |headers| ==> headers[i].0 != name
    decreases |headers|
  {
    if headers == [] then None
    else if headers[0].0 == name then Some(headers[0].1)
    else HeaderValue(headers[1..], name)
  }

  /** The header at `i` is the first one called `name`. */
  lemma {:induction false} HeaderValueAt(headers: seq<(string, string)>, name: string, i: nat)
    requires i < |headers| && headers[i].0 == name
    requires forall j :: 0 <= j < i ==> headers[j].0 != name
    ensures HeaderValue(headers, name) == Some(headers[i].1)
    decreases i
  {
    if i > 0 {
      HeaderValueAt(headers[1..], name, i - 1);
    }
  }

  /** A reply whose `Content-Length` header reads back as the length of its body. */
  predicate LengthAgrees(r: Reply) {
    r.Raw? ==> HeaderValue(r.headers, "Content-Length").Some? &&
               DecimalValue(HeaderValue(r.headers, "Content-Length").value) == |r.body|
  }

  lemma HtmlReplyLength(status: string, body: string, close: bool)
    ensures LengthAgrees(HtmlReply(status, body, close))
    ensures HeaderValue(HtmlReply(status, body, close).headers, "Connection") == if close then Some("close") else None
  {
    var headers := HtmlReply(status, body, close).headers;
    HeaderValueAt(headers, "Content-Length", 1);
    DecimalRoundTrip(|body|);
    if close {
      HeaderValueAt(headers, "Connection", 2);
    }
  }

  /** Each header of the JSON reply is the first one with its name. */
  lemma JsonHeader(json: string, i: nat)
    requires i < 6
    ensures HeaderValue(JsonReply(json).headers, JsonReply(json).headers[i].0) == Some(JsonReply(json).headers[i].1)
  {
    var headers := JsonReply(json).headers;
    if i == 0 {
      HeaderValueAt(headers, "Content-Type", 0);
    } else if i == 1 {
      HeaderValueAt(headers, "Access-Control-Allow-Origin", 1);
    } else if i == 2 {
      HeaderValueAt(headers, "Access-Control-Allow-Methods", 2);
    } else if i == 3 {
      HeaderValueAt(headers, "Access-Control-Allow-Headers", 3);
    } else if i == 4 {
      HeaderValueAt(headers, "Content-Length", 4);
    } else {
      HeaderValueAt(headers, "Connection", 5);
    }
  }

  lemma JsonReplyLength(json: string)
    ensures LengthAgrees(JsonReply(json))
  {
    JsonHeader(json, 4);
    DecimalRoundTrip(|json|);
  }

  /** A dict result is sent as `200 OK` JSON with the CORS headers, its length stated, and the connection closed. */
  lemma JsonReplyShape(json: string)
    ensures var r := JsonReply(json);
            r.status == Ok && r.body == json && LengthAgrees(r) &&
            HeaderValue(r.headers, "Content-Type") == Some("application/json") &&
            HeaderValue(r.headers, "Access-Control-Allow-Origin") == Some("*") &&
            HeaderValue(r.headers, "Access-Control-Allow-Methods") == Some("GET, POST, PUT, DELETE, OPTIONS") &&
            HeaderValue(r.headers, "Access-Control-Allow-Headers") == Some("Content-Type, Authorization") &&
            HeaderValue(r.headers, "Connection") == Some("close")
  {
    JsonReplyLength(json);
    JsonHeader(json, 0);
    JsonHeader(json, 1);
    JsonHeader(json, 2);
    JsonHeader(json, 3);
    JsonHeader(json, 5);
  }

  // ---------------------------------------------------------------------------
  // Login and registration
  // ---------------------------------------------------------------------------

  /** The `username` and `password` form values; a later part overwrites an earlier one. */
  function Credentials(body: string): (r: (Option<string>, Option<string>))
    ensures r.0.Some? <==> "username" in Form(body, AsIs)
    ensures r.0.Some? ==> r.0.value == Form(body, AsIs)["username"]
    ensures r.1.Some? <==> "password" in Form(body, AsIs)
    ensures r.1.Some? ==> r.1.value == Form(body, AsIs)["password"]
    ensures body == "" ==> r == (None, None)
  {
    var form := Form(body, AsIs);
    (Lookup(form, "username"), Lookup(form, "password"))
  }

  /** The users the login compares against. */
  function LoginUsers(db: UserDb): (users: seq<User>)
    ensures db.Users? ==> users == db.list
    ensures db.NoUserList? ==> users == []
    ensures db.Unreadable? ==> |users| == 1 && users[0].username == "admin" && users[0].password == "password"
  {
    match db
    case Unreadable => FallbackUsers
    case NoUserList => []
    case Users(list) => list
  }

  predicate Matches(u: User, username: Option<string>, password: Option<string>) {
    username == Some(u.username) && password == Some(u.password)
  }

  /** The first user whose name and password both equal the form values. */
  function FirstMatch(users: seq<User>, username: Option<string>, password: Option<string>): (r: Option<nat>)
    ensures r.Some? ==> r.value < |users| && Matches(users[r.value], username, password) &&
                        forall j :: 0 <= j < r.value ==> !Matches(users[j], username, password)
    ensures r.None? ==> forall j :: 0 <= j < |users| ==> !Matches(users[j], username, password)
    decreases |users|
  {
    if users == [] then None
    else if Matches(users[0], username, password) then Some(0)
    else
      match FirstMatch(users[1..], username, password)
      case None => None
      case Some(i) => Some(i + 1)
  }

  /** The session cookies a successful login or registration sets. */
  function SessionCookies(cookies: map<string, string>, username: string, role: string): (c: map<string, string>)
    ensures c.Keys == cookies.Keys + {"auth", "username", "role"}
    ensures c["auth"] == "true" && c["username"] == username && c["role"] == role
  {
    cookies["auth" := "true"]["username" := username]["role" := role]
  }

  /** POST /login. */
  function Login(body: string, db: UserDb, cookies: map<string, string>): (r: Reply)
    ensures r.Built? ==> r.path == "/index.html" && "auth" in r.cookies && r.cookies["auth"] == "true" &&
                         Credentials(body).0.Some? && "username" in r.cookies && r.cookies["username"] == Credentials(body).0.value
    ensures !r.Built? ==> r == HtmlReply(Unauthorized, LoginFailedBody, true)
  {
    var (username, password) := Credentials(body);
    var users := LoginUsers(db);
    match FirstMatch(users, username, password)
    case Some(i) => Built("/index.html", SessionCookies(cookies, username.value, users[i].role.GetOr("user")))
    case None => HtmlReply(Unauthorized, LoginFailedBody, true)
  }

  /** `any(u['username'] == username for u in users)`. */
  predicate Taken(users: seq<User>, username: string) {
    exists i :: 0 <= i < |users| && users[i].username == username
  }

  /**
   * POST /register. A database that cannot be read counts as an empty one; a
   * document without a `users` list makes the append raise, which closes the
   * connection.
   */
  function Register(body: string, db: UserDb, cookies: map<string, string>): (r: Handled)
    ensures r.reply.Built? <==> r.saved.Some?
    ensures r.saved.Some? ==>
      var s := r.saved.value;
      |s| > 0 && Credentials(body) == (Some(s[|s| - 1].username), Some(s[|s| - 1].password)) &&
      s[|s| - 1].username != "" && s[|s| - 1].password != "" && s[|s| - 1].role == Some("user")
  {
    var (username, password) := Credentials(body);
    if username.None? || username.value == "" || password.None? || password.value == "" then
      Handled(HtmlReply(BadRequest, MissingFieldsBody, false), None)
    else
      var list := match db
        case Unreadable => Some([])
        case NoUserList => None
        case Users(l) => Some(l);
      if Taken(list.GetOr([]), username.value) then
        Handled(HtmlReply(Conflict, UserExistsBody, false), None)
      else if list.None? then
        Handled(Closed, None)
      else
        Handled(Built("/index.html", SessionCookies(cookies, username.value, "user")),
                Some(list.value + [User(username.value, password.value, Some("user"))]))
  }

  // ---------------------------------------------------------------------------
  // The dispatch chain
  // ---------------------------------------------------------------------------

  /** A GET page served only to a request whose `auth` cookie is exactly `true`. */
  function Gated(v: RequestView, deniedBody: string, cookies: map<string, string>): (r: Reply)
    requires v.path.Some?
    ensures r.Built? <==> Get(v.cookies, "auth", "") == "true"
    ensures r.Built? ==> r == Built(v.path.value, cookies)
  {
    if Get(v.cookies, "auth", "") == "true" then Built(v.path.value, cookies)
    else HtmlReply(Unauthorized, deniedBody, true)
  }

  predicate Is(v: RequestView, verb: string, path: string) {
    v.verb == Some(verb) && v.path == Some(path)
  }

  /** `handle_client` after `prepare`: the branches in their fixed order. */
  function Dispatch(v: RequestView, db: UserDb, hook: HookResult, cookies: map<string, string>): (r: Handled)
    ensures (v.verb.None? || v.path.None?) ==> r == Handled(Closed, None)
    ensures r.saved.Some? ==> Is(v, "POST", "/register")
    ensures r.reply.Closed? ==>
      v.verb.None? || v.path.None? || (Is(v, "POST", "/register") && db.NoUserList?) ||
      (v.hook.Some? && hook.HookRaised?)
  {
    if v.verb.None? || v.path.None? then Handled(Closed, None)
    else if Is(v, "POST", "/login") then Handled(Login(v.body, db, cookies), None)
    else if Is(v, "POST", "/register") then Register(v.body, db, cookies)
    else if Is(v, "GET", "/index.html") then Handled(Gated(v, LoginFirstBody, cookies), None)
    else if Is(v, "GET", "/chat_discord.html") then Handled(Gated(v, ChatLoginBody, cookies), None)
    else if v.hook.Some? then
      match hook
      case DictResult(json) => Handled(JsonReply(json), None)
      case OtherResult => Handled(Built(v.path.value, cookies), None)
      case HookRaised => Handled(Closed, None)
    else Handled(Built(v.path.value, cookies), None)
  }

  /** A request that fails to parse is closed with nothing sent. */
  lemma ParseFailureCloses(msg: string, routes: map<RouteKey, string>, db: UserDb, hook: HookResult, cookies: map<string, string>)
    requires ExtractRequestLine(msg).None?
    ensures Dispatch(Parse(msg, routes), db, hook, cookies) == Handled(Closed, None)
  {
  }

  /** Login, registration and the gated pages are decided before any route hook is consulted. */
  lemma SpecialPathsIgnoreHook(v: RequestView, db: UserDb, h1: HookResult, h2: HookResult, cookies: map<string, string>)
    requires Is(v, "POST", "/login") || Is(v, "POST", "/register") ||
             Is(v, "GET", "/index.html") || Is(v, "GET", "/chat_discord.html")
    ensures Dispatch(v, db, h1, cookies) == Dispatch(v.(hook := None), db, h2, cookies)
  {
  }

  /** Without a hook every other parsed request gets the static response for its path. */
  lemma StaticFallback(v: RequestView, db: UserDb, hook: HookResult, cookies: map<string, string>)
    requires v.verb.Some? && v.path.Some? && v.hook.None?
    requires !Is(v, "POST", "/login") && !Is(v, "POST", "/register")
    requires !Is(v, "GET", "/index.html") && !Is(v, "GET", "/chat_discord.html")
    ensures Dispatch(v, db, hook, cookies) == Handled(Built(v.path.value, cookies), None)
  {
  }

  /** A hook's dict becomes the JSON reply, another value the static response, an exception a closed connection. */
  lemma HookOutcomes(v: RequestView, db: UserDb, hook: HookResult, cookies: map<string, string>)
    requires v.verb.Some? && v.path.Some? && v.hook.Some?
    requires !Is(v, "POST", "/login") && !Is(v, "POST", "/register")
    requires !Is(v, "GET", "/index.html") && !Is(v, "GET", "/chat_discord.html")
    ensures hook.DictResult? ==> Dispatch(v, db, hook, cookies).reply == JsonReply(hook.json)
    ensures hook.OtherResult? ==> Dispatch(v, db, hook, cookies).reply == Built(v.path.value, cookies)
    ensures hook.HookRaised? ==> Dispatch(v, db, hook, cookies).reply == Closed
    ensures Dispatch(v, db, hook, cookies).saved.None?
  {
  }

  /**
   * Login succeeds exactly when some user matches both form values; it then
   * serves /index.html with `auth=true`, the form's user name and the first
   * matching user's role (`user` when it has none), and a 401 otherwise.
   */
  lemma LoginOutcome(body: string, db: UserDb, cookies: map<string, string>)
    ensures var (u, p) := Credentials(body);
            var users := LoginUsers(db);
            Login(body, db, cookies).Built? <==> exists i :: 0 <= i < |users| && Matches(users[i], u, p)
    ensures var (u, p) := Credentials(body);
            var users := LoginUsers(db);
            Login(body, db, cookies).Built? ==>
              exists i :: 0 <= i < |users| && Matches(users[i], u, p) &&
                (forall j :: 0 <= j < i ==> !Matches(users[j], u, p)) &&
                Login(body, db, cookies) == Built("/index.html", SessionCookies(cookies, users[i].username, users[i].role.GetOr("user")))
    ensures !Login(body, db, cookies).Built? ==> Login(body, db, cookies) == HtmlReply(Unauthorized, LoginFailedBody, true)
  {
  }

  /** Without a readable database only `admin` / `password` logs in. */
  lemma FallbackLogin(body: string, cookies: map<string, string>)
    ensures Login(body, Unreadable, cookies).Built? <==>
            Credentials(body) == (Some("admin"), Some("password"))
  {
  }

  /** Session cookies: exactly these three keys change. */
  lemma SessionCookiesSet(cookies: map<string, string>, username: string, role: string)
    ensures var c := SessionCookies(cookies, username, role);
            c["auth"] == "true" && c["username"] == username && c["role"] == role &&
            c.Keys == cookies.Keys + {"auth", "username", "role"} &&
            forall k :: k in cookies && k !in {"auth", "username", "role"} ==> c[k] == cookies[k]
  {
  }

  /**
   * Registration answers 400 without both values, 409 for a taken name, and
   * otherwise appends the user with role `user` and logs it in.
   */
  lemma RegisterOutcome(body: string, db: UserDb, cookies: map<string, string>)
    ensures var (u, p) := Credentials(body);
            var h := Register(body, db, cookies);
            (u.None? || u.value == "" || p.None? || p.value == "") ==>
              h == Handled(HtmlReply(BadRequest, MissingFieldsBody, false), None)
    ensures var (u, p) := Credentials(body);
            var h := Register(body, db, cookies);
            (u.Some? && u.value != "" && p.Some? && p.value != "" && db.Users? && Taken(db.list, u.value)) ==>
              h == Handled(HtmlReply(Conflict, UserExistsBody, false), None)
    ensures var (u, p) := Credentials(body);
            var h := Register(body, db, cookies);
            (u.Some? && u.value != "" && p.Some? && p.value != "" && !db.NoUserList? &&
             !(db.Users? && Taken(db.list, u.value))) ==>
              h.reply == Built("/index.html", SessionCookies(cookies, u.value, "user")) &&
              h.saved == Some((if db.Users? then db.list else []) + [User(u.value, p.value, Some("user"))])
    ensures var (u, p) := Credentials(body);
            var h := Register(body, db, cookies);
            (u.Some? && u.value != "" && p.Some? && p.value != "" && db.NoUserList?) ==>
              h == Handled(Closed, None)
    ensures var h := Register(body, db, cookies);
            h.saved.Some? ==>
              var s := h.saved.value;
              |s| > 0 && s[|s| - 1].role == Some("user") && !Taken(s[..|s| - 1], s[|s| - 1].username)
  {
    var h := Register(body, db, cookies);
    if h.saved.Some? {
      var s := h.saved.value;
      assert s[..|s| - 1] == (if db.Users? then db.list else []);
    }
  }

  /** The gated pages are served exactly when the `auth` cookie is `true`, and a 401 is sent otherwise. */
  lemma GateOutcome(v: RequestView, db: UserDb, hook: HookResult, cookies: map<string, string>)
    requires Is(v, "GET", "/index.html") || Is(v, "GET", "/chat_discord.html")
    ensures Dispatch(v, db, hook, cookies).reply.Built? <==> Get(v.cookies, "auth", "") == "true"
    ensures Dispatch(v, db, hook, cookies).reply.Built? ==> Dispatch(v, db, hook, cookies).reply == Built(v.path.value, cookies)
    ensures !Dispatch(v, db, hook, cookies).reply.Built? ==> Dispatch(v, db, hook, cookies).reply.status == Unauthorized
  {
  }

  lemma LoginLength(body: string, db: UserDb, cookies: map<string, string>)
    ensures LengthAgrees(Login(body, db, cookies))
  {
    HtmlReplyLength(Unauthorized, LoginFailedBody, true);
  }

  lemma RegisterLength(body: string, db: UserDb, cookies: map<string, string>)
    ensures LengthAgrees(Register(body, db, cookies).reply)
  {
    HtmlReplyLength(BadRequest, MissingFieldsBody, false);
    HtmlReplyLength(Conflict, UserExistsBody, false);
  }

  lemma GatedLength(v: RequestView, deniedBody: string, cookies: map<string, string>)
    requires v.path.Some?
    ensures LengthAgrees(Gated(v, deniedBody, cookies))
  {
    HtmlReplyLength(Unauthorized, deniedBody, true);
  }

  /** Every hand-written reply states the length of its body. */
  lemma DispatchLength(v: RequestView, db: UserDb, hook: HookResult, cookies: map<string, string>)
    ensures LengthAgrees(Dispatch(v, db, hook, cookies).reply)
  {
    var r := Dispatch(v, db, hook, cookies).reply;
    if v.verb.None? || v.path.None? {
      assert r == Closed;
    } else if Is(v, "POST", "/login") {
      LoginLength(v.body, db, cookies);
      assert r == Login(v.body, db, cookies);
    } else if Is(v, "POST", "/register") {
      RegisterLength(v.body, db, cookies);
      assert r == Register(v.body, db, cookies).reply;
    } else if Is(v, "GET", "/index.html") {
      GatedLength(v, LoginFirstBody, cookies);
      assert r == Gated(v, LoginFirstBody, cookies);
    } else if Is(v, "GET", "/chat_discord.html") {
      GatedLength(v, ChatLoginBody, cookies);
      assert r == Gated(v, ChatLoginBody, cookies);
    } else if v.hook.Some? && hook.DictResult? {
      JsonReplyLength(hook.json);
      assert r == JsonReply(hook.json);
    } else {
      assert !r.Raw?;
    }
  }

  /** Only the login and registration branches set cookies; every other page keeps them. */
  lemma OtherPagesKeepCookies(v: RequestView, db: UserDb, hook: HookResult, cookies: map<string, string>)
    requires !Is(v, "POST", "/login") && !Is(v, "POST", "/register")
    ensures var r := Dispatch(v, db, hook, cookies).reply;
            r.Built? ==> r.cookies == cookies
  {
    var r := Dispatch(v, db, hook, cookies).reply;
    if v.verb.None? || v.path.None? {
      assert r == Closed;
    } else if Is(v, "GET", "/index.html") {
      assert r == Gated(v, LoginFirstBody, cookies);
    } else if Is(v, "GET", "/chat_discord.html") {
      assert r == Gated(v, ChatLoginBody, cookies);
    }
  }

  // ---------------------------------------------------------------------------
  // The adapter object
  // ---------------------------------------------------------------------------

  /** The form loop of /login and /register: only `username` and `password` are kept. */
  method ReadCredentials(body: string) returns (username: Option<string>, password: Option<string>)
    ensures (username, password) == Credentials(body)
  {
    username, password := None, None;
    if body == "" {
      return;
    }
    var params := Split(body, "&");
    for i := 0 to |params|
      invariant username == Lookup(Assemble(Entry(AsIs), params[..i]), "username")
      invariant password == Lookup(Assemble(Entry(AsIs), params[..i]), "password")
    {
      assert params[..i + 1][..i] == params[..i];
      var param := params[i];
      if Contains(param, "=") {
        var kv := SplitOnce(param, "=").value;
        if kv.0 == "username" {
          username := Some(kv.1);
        } else if kv.0 == "password" {
          password := Some(kv.1);
        }
      }
    }
    assert params[..|params|] == params;
  }

  /** The credential scan of /login, stopping at the first match. */
  method FindUser(users: seq<User>, username: Option<string>, password: Option<string>) returns (found: Option<nat>)
    ensures found == FirstMatch(users, username, password)
  {
    found := None;
    var i := 0;
    while i < |users|
      invariant 0 <= i <= |users|
      invariant forall j :: 0 <= j < i ==> !Matches(users[j], username, password)
    {
      if Some(users[i].username) == username && Some(users[i].password) == password {
        found := Some(i);
        break;
      }
      i := i + 1;
    }
    FirstMatchUnique(users, username, password, found);
  }

  lemma FirstMatchUnique(users: seq<User>, username: Option<string>, password: Option<string>, found: Option<nat>)
    requires found.Some? ==> found.value < |users| && Matches(users[found.value], username, password) &&
                             forall j :: 0 <= j < found.value ==> !Matches(users[j], username, password)
    requires found.None? ==> forall j :: 0 <= j < |users| ==> !Matches(users[j], username, password)
    ensures found == FirstMatch(users, username, password)
  {
  }

  /** The branches of `handle_client` once the request is parsed, with their loops. */
  method Respond(v: RequestView, db: UserDb, hook: HookResult, cookies: map<string, string>)
    returns (h: Handled, after: map<string, string>)
    ensures h == Dispatch(v, db, hook, cookies)
    ensures h.reply.Built? ==> after == h.reply.cookies
    ensures !h.reply.Built? ==> after == cookies
  {
    if v.verb.None? || v.path.None? {
      return Handled(Closed, None), cookies;
    }
    if v.verb == Some("POST") && v.path == Some("/login") {
      var reply := LoginBranch(v.body, db, cookies);
      h := Handled(reply, None);
      assert Dispatch(v, db, hook, cookies) == Handled(Login(v.body, db, cookies), None);
      after := if reply.Built? then reply.cookies else cookies;
    } else if v.verb == Some("POST") && v.path == Some("/register") {
      h := RegisterBranch(v.body, db, cookies);
      assert Dispatch(v, db, hook, cookies) == Register(v.body, db, cookies);
      after := if h.reply.Built? then h.reply.cookies else cookies;
    } else {
      h := Dispatch(v, db, hook, cookies);
      after := cookies;
      OtherPagesKeepCookies(v, db, hook, cookies);
    }
  }

  /** The /login branch: the form loop, then the credential scan. */
  method LoginBranch(body: string, db: UserDb, cookies: map<string, string>) returns (reply: Reply)
    ensures reply == Login(body, db, cookies)
  {
    var username, password := ReadCredentials(body);
    var users := LoginUsers(db);
    var found := FindUser(users, username, password);
    if found.Some? {
      reply := Built("/index.html", SessionCookies(cookies, username.value, users[found.value].role.GetOr("user")));
    } else {
      reply := HtmlReply(Unauthorized, LoginFailedBody, true);
    }
  }

  /** The /register branch: the form loop, then the scan for a taken name. */
  method RegisterBranch(body: string, db: UserDb, cookies: map<string, string>) returns (h: Handled)
    ensures h == Register(body, db, cookies)
  {
    var username, password := ReadCredentials(body);
    if username.None? || username.value == "" || password.None? || password.value == "" {
      return Handled(HtmlReply(BadRequest, MissingFieldsBody, false), None);
    }
    var present := match db case Unreadable => [] case NoUserList => [] case Users(l) => l;
    var taken := NameTaken(present, username.value);
    if taken {
      h := Handled(HtmlReply(Conflict, UserExistsBody, false), None);
    } else if db.NoUserList? {
      h := Handled(Closed, None);
    } else {
      h := Handled(Built("/index.html", SessionCookies(cookies, username.value, "user")),
                   Some(present + [User(username.value, password.value, Some("user"))]));
    }
  }

  /** The `any(...)` scan for a taken user name. */
  method NameTaken(users: seq<User>, username: string) returns (taken: bool)
    ensures taken <==> Taken(users, username)
  {
    taken := false;
    for i := 0 to |users|
      invariant taken <==> Taken(users[..i], username)
    {
      assert forall j :: 0 <= j < i ==> users[..i + 1][j] == users[..i][j];
      if users[i].username == username {
        taken := true;
      }
    }
    assert users[..|users|] == users;
  }

  class HttpAdapter {
    var request: Request
    /** `resp.cookies` of the adapter's response object. */
    var cookies: map<string, string>

    constructor ()
      ensures cookies == map[] && fresh(request) && request.hook.None?
    {
      request := new Request();
      cookies := map[];
    }

    /**
     * `handle_client` on the text `msg` received: prepares the request and
     * answers as `Dispatch` says for the parsed request; a successful login or
     * registration stores the session cookies in the response object and
     * points the request at /index.html.
     */
    method HandleClient(msg: string, routes: map<RouteKey, string>, db: UserDb, hook: HookResult)
      returns (h: Handled)
      requires request.hook.None?
      modifies this, request
      ensures request == old(request)
      ensures h == Dispatch(Parse(msg, routes), db, hook, old(cookies))
      ensures h.reply.Built? ==> cookies == h.reply.cookies && request.path == Some(h.reply.path)
      ensures !h.reply.Built? ==> cookies == old(cookies)
      ensures request.View() ==
        if h.reply.Built? then Parse(msg, routes).(path := Some(h.reply.path)) else Parse(msg, routes)
      ensures request.routes == if routes == map[] then old(request.routes) else routes
    {
      var req := request;
      req.Prepare(msg, routes);
      var v := req.View();
      assert v == Parse(msg, routes);
      h, cookies := Respond(v, db, hook, cookies);
      if h.reply.Built? {
        // `req.path = '/index.html'` after a login or registration; the other pages keep their path
        req.path := Some(h.reply.path);
      }
    }
  }
}
