/** Authentication (`auth.go`): the Basic credential of section 2 of
    RFC 7617 that `BasicAuth` adds to every request, the cookie session
    `NewSession` opens, and the document `CreateUser` stores. */
module Auth {

  import opened Wrappers
  import opened Http
  import Base64
  import Database
  import Security

  type byte = Base64.byte

  /** `:` separates the user-id from the password. */
  const Colon: byte := 58

  // ---------------------------------------------------------------------
  // Basic

  /** A user name and a password, as the bytes of Go strings. */
  datatype BasicAuth = BasicAuth(username: seq<byte>, password: seq<byte>) {

    /** `username + ":" + password`. */
    function Credential(): (c: seq<byte>)
      ensures |c| == |username| + 1 + |password|
    {
      username + [Colon] + password
    }

    /** The value of the `Authorization` header: `Basic `, then the
        credential in base64. */
    function HeaderValue(): (v: string)
      ensures |v| == 6 + 4 * ((|Credential()| + 2) / 3)
      ensures v[..6] == "Basic " && Base64.Decode(v[6..]) == Some(Credential())
    {
      var encoded := Base64.Encode(Credential());
      Base64.RoundTrip(Credential());
      var v := "Basic " + encoded;
      assert v[6..] == encoded;
      v
    }

    /** `AddAuthHeaders`: adds, not sets, the header, so every call puts
        one more `Authorization` value after those already there. */
    method AddAuthHeaders(req: HttpRequest)
      modifies req
      ensures req.header == old(req.header)["Authorization" := Values(old(req.header), "Authorization") + [HeaderValue()]]
    {
      var authString := Credential();
      var header := "Basic " + Base64.Encode(authString);
      req.header := req.header["Authorization" := Values(req.header, "Authorization") + [header]];
    }
  }

  /** Reading a credential as section 2 of RFC 7617 does: the user-id is
      everything before the first colon, the password everything after. */
  function SplitCredential(c: seq<byte>): Option<(seq<byte>, seq<byte>)>
  {
    if c == [] then None
    else if c[0] == Colon then Some(([], c[1..]))
    else match SplitCredential(c[1..])
      case None => None
      case Some((user, pass)) => Some(([c[0]] + user, pass))
  }

  /** A user name without a colon is read back from the header together
      with the password, whatever the password holds. */
  lemma {:induction false} CredentialSplits(username: seq<byte>, password: seq<byte>)
    requires Colon !in username
    ensures SplitCredential(BasicAuth(username, password).Credential()) == Some((username, password))
  {
    var c := username + [Colon] + password;
    if username != [] {
      CredentialSplits(username[1..], password);
      assert c[1..] == username[1..] + [Colon] + password;
      assert [username[0]] + username[1..] == username;
    } else {
      assert c[1..] == password;
    }
  }

  /** The header names the credentials it carries: two users without a
      colon in their names have the same header only when their names and
      passwords agree. */
  lemma HeaderIdentifies(a: BasicAuth, b: BasicAuth)
    requires Colon !in a.username && Colon !in b.username
    requires a.HeaderValue() == b.HeaderValue()
    ensures a == b
  {
    CredentialSplits(a.username, a.password);
    CredentialSplits(b.username, b.password);
  }

  /** The header values of a request, by name. */
  class HttpRequest {
    var header: map<string, seq<string>>

    constructor (header: map<string, seq<string>>)
      ensures this.header == header
    {
      this.header := header;
    }
  }

  /** The values held under `key`, none when it is absent. */
  function Values(header: map<string, seq<string>>, key: string): seq<string>
  {
    if key in header then header[key] else []
  }

  // ---------------------------------------------------------------------
  // Cookie sessions

  datatype Cookie = Cookie(name: string, value: string)

  /** A session; its cookie stays empty when the server set none. */
  datatype Session = Session(cookie: Option<Cookie>)

  const SessionCookie := "AuthSession"

  /** The last cookie with the given name. */
  function LastNamed(cookies: seq<Cookie>, name: string): (r: Option<Cookie>)
    ensures r.None? <==> forall i :: 0 <= i < |cookies| ==> cookies[i].name != name
    ensures r.Some? ==> r.value.name == name && LastAt(cookies, name, r.value)
  {
    if cookies == [] then None
    else if cookies[|cookies| - 1].name == name then
      assert NamedAt(cookies, name, |cookies| - 1, cookies[|cookies| - 1]);
      Some(cookies[|cookies| - 1])
    else
      var init := cookies[..|cookies| - 1];
      var r := LastNamed(init, name);
      assert forall i :: 0 <= i < |init| ==> init[i] == cookies[i];
      assert r.Some? ==> LastAt(cookies, name, r.value) by {
        if r.Some? {
          var i :| 0 <= i < |init| && NamedAt(init, name, i, r.value);
          assert cookies[i] == r.value;
          assert forall j :: i < j < |init| ==> cookies[j].name != name;
          assert NamedAt(cookies, name, i, r.value);
        }
      }
      r
  }

  /** `c` sits at position `i` and no later cookie has the name. */
  predicate NamedAt(cookies: seq<Cookie>, name: string, i: int, c: Cookie)
  {
    && 0 <= i < |cookies| && cookies[i] == c
    && forall j :: i < j < |cookies| ==> cookies[j].name != name
  }

  /** `c` is in the list with no cookie of the name after it. */
  predicate LastAt(cookies: seq<Cookie>, name: string, c: Cookie)
  {
    exists i :: 0 <= i < |cookies| && NamedAt(cookies, name, i, c)
  }

  /** `NewSession`'s request: a JSON object with exactly `name` and
      `password`, posted to `/_session`. */
  function SessionRequest(user: string, pass: string): (req: Request)
    ensures req.verb == "POST" && req.path == "/_session"
    ensures req.headers == map["Content-Type" := ApplicationJson]
    ensures req.body.Some? && req.body.value.Obj? && req.body.value.fields.Keys == {"name", "password"}
    ensures req.body.value.fields["name"] == Str(user) && req.body.value.fields["password"] == Str(pass)
  {
    Request("POST", "/_session", map["Content-Type" := ApplicationJson],
            Some(Obj(map["name" := Str(user), "password" := Str(pass)])))
  }

  /** `NewSession`, given what the request came back with: the cookies of
      the response, or the error. Of the cookies, the last one named
      `AuthSession` is kept. */
  method NewSession(user: string, pass: string, reply: Result<seq<Cookie>, Error>)
    returns (req: Request, session: Result<Session, Error>)
    ensures req == SessionRequest(user, pass)
    ensures reply.Err? ==> session == Err(reply.error)
    ensures reply.Ok? ==> session == Ok(Session(LastNamed(reply.value, SessionCookie)))
  {
    req := SessionRequest(user, pass);
    if reply.Err? {
      return req, Err(reply.error);
    }
    var cookies := reply.value;
    var cookie: Option<Cookie> := None;
    var i := 0;
    while i < |cookies|
      invariant 0 <= i <= |cookies|
      invariant cookie == LastNamed(cookies[..i], SessionCookie)
    {
      assert cookies[..i + 1][..i] == cookies[..i];
      if cookies[i].name == SessionCookie {
        cookie := Some(cookies[i]);
      }
      i := i + 1;
    }
    assert cookies[..i] == cookies;
    session := Ok(Session(cookie));
  }

  // ---------------------------------------------------------------------
  // Users

  /** `UserRecord`. */
  datatype UserRecord = UserRecord(login: string, kind: string, roles: Option<seq<string>>, password: string)

  const UserPrefix := "org.couchdb.user:"

  /** The id the user document is stored under. */
  function UserDocId(login: string): (id: string)
    ensures |id| == |UserPrefix| + |login|
    ensures id[..|UserPrefix|] == UserPrefix && id[|UserPrefix|..] == login
  {
    UserPrefix + login
  }

  /** Different logins get different documents. */
  lemma UserDocIdInjective(a: string, b: string)
    requires UserDocId(a) == UserDocId(b)
    ensures a == b
  {
    assert a == UserDocId(a)[|UserPrefix|..];
  }

  /** The record as `json.Marshal` writes it. No field is `omitempty`:
      a nil role list is written as `null`. */
  function UserJson(user: UserRecord): Value
  {
    Obj(map["name" := Str(user.login), "type" := Str(user.kind),
            "roles" := (if user.roles.None? then Null else Arr(StringValues(user.roles.value))),
            "password" := Str(user.password)])
  }

  /** Reading a user document back: four string fields and a role list
      that is `null` or an array of strings. */
  function DecodeUser(v: Value): Option<UserRecord>
  {
    if !v.Obj? || v.fields.Keys != {"name", "type", "roles", "password"} then None
    else
      var f := v.fields;
      if !f["name"].Str? || !f["type"].Str? || !f["password"].Str? then None
      else match f["roles"]
        case Null => Some(UserRecord(f["name"].s, f["type"].s, None, f["password"].s))
        case Arr(items) =>
          (match Security.DecodeItems(items)
           case Some(roles) => Some(UserRecord(f["name"].s, f["type"].s, Some(roles), f["password"].s))
           case None => None)
        case _ => None
  }

  /** The stored document reads back as the record, a nil role list
      included. */
  lemma UserRoundTrip(user: UserRecord)
    ensures DecodeUser(UserJson(user)) == Some(user)
  {
    if user.roles.Some? {
      Security.StringsRoundTrip(user.roles.value);
    }
  }

  /** `CreateUser` up to the request, once `_users` is open (opening it is
      the outcome given): the record is put into `_users` under its id. */
  function CreateUser(user: UserRecord, usersDb: Option<Error>): (call: Call)
    ensures usersDb.Some? ==> call == Reject(usersDb.value)
    ensures usersDb.None? ==> call.Send? && call.request.body == Some(UserJson(user))
    ensures call.Send? ==>
      && call.request.verb == "PUT"
      && call.request.path == Database.JoinedPath(["_users", UserDocId(user.login)])
      && call.request.body.Some? && call.request.body.value.Obj?
      && call.request.body.value.fields.Keys == {"name", "type", "roles", "password"}
    ensures call.Send? && user.login != [] && user.login[|user.login| - 1] != '/' ==>
      call.request.path == "/_users/" + UserPrefix + user.login
  {
    UserPath(user.login);
    UserJsonFields(user);
    var path := Database.JoinedPath(["_users", UserDocId(user.login)]);
    if usersDb.Some? then Reject(usersDb.value)
    else
      Send(Request("PUT", path, map["Content-Type" := ApplicationJson], Some(UserJson(user))))
  }

  /** A login that does not end in `/` is kept whole in the document's path. */
  lemma UserPath(login: string)
    ensures login != [] && login[|login| - 1] != '/' ==>
      Database.JoinedPath(["_users", UserDocId(login)]) == "/_users/" + UserPrefix + login
  {
    if login != [] && login[|login| - 1] != '/' {
      var id := UserDocId(login);
      assert id[|id| - 1] == login[|login| - 1];
      Database.TwoSegments("_users", id);
    }
  }

  /** The stored document has exactly the four fields of the record. */
  lemma UserJsonFields(user: UserRecord)
    ensures UserJson(user).Obj? && UserJson(user).fields.Keys == {"name", "type", "roles", "password"}
  {
  }
}
