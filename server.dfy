/** Server-level calls (`server.go`): the argument guard and path of
    `GetUUIDs`, the path of `GetLog` and what it returns, the path and
    the result of `GetDBEvent`, the body `Replicate` posts, and how
    `GetMembership` reads a refusal. */
module Server {

  import opened Wrappers
  import opened Http
  import Text
  import Query

  // ---------------------------------------------------------------------
  // GetUUIDs

  const UUIDsPrefix := "/_uuids?count="

  /** `GetUUIDs` up to the request: a count below one is refused before
      anything is sent; otherwise the count is asked for in decimal. */
  function GetUUIDs(count: int): (call: Call)
    ensures call.Reject? <==> count < 1
    ensures call.Reject? ==> call.error == CountNotPositive
    ensures call.Send? ==>
      && call.request.verb == "GET" && call.request.headers == map[] && call.request.body.None?
      && |call.request.path| > |UUIDsPrefix|
      && call.request.path[..|UUIDsPrefix|] == UUIDsPrefix
      && call.request.path[|UUIDsPrefix|..] == Text.NatToDecimal(count)
      && Text.ParseNat(call.request.path[|UUIDsPrefix|..]) == Some(count)
  {
    if count < 1 then Reject(CountNotPositive)
    else
      var path := UUIDsPrefix + Text.NatToDecimal(count);
      assert path[|UUIDsPrefix|..] == Text.NatToDecimal(count);
      Text.DecimalRoundTrip(count);
      Send(Request("GET", path, map[], None))
  }

  /** Different counts ask for different paths. */
  lemma UUIDsPathInjective(m: int, n: int)
    requires m >= 1 && n >= 1 && GetUUIDs(m) == GetUUIDs(n)
    ensures m == n
  {
  }

  // ---------------------------------------------------------------------
  // GetLog

  const LogPrefix := "/_log?bytes="

  /** The path `GetLog` asks for: the size in decimal when it is positive,
      the whole default chunk otherwise. */
  function LogPath(size: int): (path: string)
    ensures size <= 0 ==> path == "/_log"
    ensures size > 0 ==>
      && |path| > |LogPrefix| && path[..|LogPrefix|] == LogPrefix
      && path[|LogPrefix|..] == Text.NatToDecimal(size)
      && Text.ParseNat(path[|LogPrefix|..]) == Some(size)
  {
    if size > 0 then
      var path := LogPrefix + Text.NatToDecimal(size);
      assert path[|LogPrefix|..] == Text.NatToDecimal(size);
      Text.DecimalRoundTrip(size);
      path
    else "/_log"
  }

  /** What `GetLog` returns as written, given the reply and the outcome
      of reading the body. `defer resp.Body.Close()` runs before the
      error check and dereferences the response at once, so a request
      that gets no response at all panics instead of returning. */
  function GetLogAsWritten(reply: Reply, read: Option<Error>): (r: Result<string, Error>)
    ensures reply.Unreachable? ==> r == Err(Panic)
    ensures reply.Refused? ==> r == Err(reply.error)
    ensures reply.Answered? ==> (r.Ok? <==> read.None?)
    ensures r.Ok? ==> r.value == reply.body
    ensures reply.Answered? && read.Some? ==> r == Err(read.value)
  {
    match reply
    case Unreachable(_) => Err(Panic)
    case Refused(_, e) => Err(e)
    case Answered(_, body) => if read.Some? then Err(read.value) else Ok(body)
  }

  /** `GetLog` with the error checked before the body is touched: every
      transport error is returned. */
  function GetLog(reply: Reply, read: Option<Error>): (r: Result<string, Error>)
    ensures reply.Answered? && read.None? ==> r == Ok(reply.body)
    ensures !reply.Answered? ==> r == Err(reply.error)
    ensures reply.Answered? && read.Some? ==> r == Err(read.value)
  {
    match reply
    case Unreachable(e) => Err(e)
    case Refused(_, e) => Err(e)
    case Answered(_, body) => if read.Some? then Err(read.value) else Ok(body)
  }

  /** The two differ exactly when there is no response: the source
      panics where the corrected call returns the transport's error. */
  lemma GetLogPanicsWithoutResponse(reply: Reply, read: Option<Error>)
    ensures reply.Unreachable? ==> GetLogAsWritten(reply, read) == Err(Panic)
    ensures reply.Unreachable? && reply.error != Panic ==> GetLogAsWritten(reply, read) != GetLog(reply, read)
    ensures !reply.Unreachable? ==> GetLogAsWritten(reply, read) == GetLog(reply, read)
  {
  }

  // ---------------------------------------------------------------------
  // GetDBEvent

  /** The path `GetDBEvent` asks for, built as the source builds it: the
      `&k=v` accumulator, trimmed of `&`, after `?` when it is not empty. */
  function DBUpdatesPath(opts: Options): string
  {
    var query := Query.AmpBefore(opts);
    if |query| > 0 then "/_db_updates?" + Text.Trim(query, '&') else "/_db_updates"
  }

  /** No options give `/_db_updates`; tidy options give the pairs joined
      by `&` after `?`. */
  lemma DBUpdatesPathShape(opts: Options)
    ensures opts == [] ==> DBUpdatesPath(opts) == "/_db_updates"
    ensures Query.Tidy(opts) ==> DBUpdatesPath(opts) == "/_db_updates?" + Query.JoinAmp(opts)
  {
    if Query.Tidy(opts) {
      Query.AmpBeforeIsJoin(opts);
      Query.TrimAmpBefore(opts);
    }
  }

  /** The accumulator loop of `GetDBEvent`. */
  method GetDBEventPath(opts: Options) returns (path: string)
    ensures path == DBUpdatesPath(opts)
    ensures opts == [] ==> path == "/_db_updates"
    ensures Query.Tidy(opts) ==> path == "/_db_updates?" + Query.JoinAmp(opts)
  {
    var url := "";
    var i := 0;
    while i < |opts|
      invariant 0 <= i <= |opts|
      invariant url == Query.AmpBefore(opts[..i])
    {
      assert opts[..i + 1][..i] == opts[..i];
      url := url + "&" + Query.PairText(opts[i]);
      i := i + 1;
    }
    assert opts[..i] == opts;
    if |url| > 0 {
      url := Text.Trim(url, '&');
      path := "/_db_updates?" + url;
    } else {
      path := "/_db_updates";
    }
    DBUpdatesPathShape(opts);
  }

  /** What `GetDBEvent` returns as written, given the reply and the text
      of the error decoding the event reported, if any. The decode error
      is bound by `if err := ...` and shadows the request's error, which
      is the one returned: after a successful request the result is
      always `nil`. */
  function GetDBEventAsWritten(reply: Reply, decodeError: Option<string>): (r: Option<Error>)
    ensures reply.Answered? ==> r.None?
    ensures !reply.Answered? ==> r == Some(reply.error)
  {
    match reply
    case Unreachable(e) => Some(e)
    case Refused(_, e) => Some(e)
    case Answered(_, _) => None
  }

  /** A decode error that mentions `EOF`: the event never came. */
  predicate EndOfInput(text: string)
  {
    Text.Contains(text, "EOF")
  }

  /** `GetDBEvent` returning the decode error, except one mentioning
      `EOF`, which stands for an event that never came. */
  function GetDBEvent(reply: Reply, decodeError: Option<string>): (r: Option<Error>)
    ensures !reply.Answered? ==> r == Some(reply.error)
    ensures reply.Answered? ==> (r.Some? <==> decodeError.Some? && !EndOfInput(decodeError.value))
    ensures r.Some? && reply.Answered? ==> r == Some(Failure(decodeError.value))
  {
    match reply
    case Unreachable(e) => Some(e)
    case Refused(_, e) => Some(e)
    case Answered(_, _) =>
      if decodeError.Some? && !EndOfInput(decodeError.value) then Some(Failure(decodeError.value)) else None
  }

  /** A body that does not decode, for a reason other than its end, is
      reported by the corrected call and lost by the source. */
  lemma DBEventDecodeErrorLost(status: int, body: string, text: string)
    requires !EndOfInput(text)
    ensures GetDBEventAsWritten(Answered(status, body), Some(text)).None?
    ensures GetDBEvent(Answered(status, body), Some(text)) == Some(Failure(text))
  {
  }

  /** Everywhere else the two agree. */
  lemma DBEventOtherwiseAgrees(reply: Reply, decodeError: Option<string>)
    requires !reply.Answered? || decodeError.None? || EndOfInput(decodeError.value)
    ensures GetDBEventAsWritten(reply, decodeError) == GetDBEvent(reply, decodeError)
  {
  }

  // ---------------------------------------------------------------------
  // Replicate

  /** The keys the `Replicate` body carries. */
  function OptionKeys(opts: Options): set<string>
  {
    set i | 0 <= i < |opts| :: opts[i].0
  }

  /** `Replicate` up to the request: `source` and `target` are set, then
      every option is copied over them, so an option named `source` or
      `target` wins. */
  method Replicate(source: string, target: string, opts: Options) returns (req: Request)
    requires DistinctKeys(opts)
    ensures req.verb == "POST" && req.path == "/_replicate"
    ensures req.headers == map["Content-Type" := ApplicationJson]
    ensures req.body.Some? && req.body.value.Obj?
    ensures req.body.value.fields.Keys == {"source", "target"} + OptionKeys(opts)
    ensures forall i :: 0 <= i < |opts| ==> req.body.value.fields[opts[i].0] == ToJson(opts[i].1)
    ensures Lookup(opts, "source").None? ==> req.body.value.fields["source"] == Str(source)
    ensures Lookup(opts, "target").None? ==> req.body.value.fields["target"] == Str(target)
  {
    var fields: map<string, Value> := map[];
    fields := fields["source" := Str(source)];
    fields := fields["target" := Str(target)];
    var i := 0;
    while i < |opts|
      invariant 0 <= i <= |opts|
      invariant fields.Keys == {"source", "target"} + OptionKeys(opts[..i])
      invariant forall j :: 0 <= j < i ==> fields[opts[j].0] == ToJson(opts[j].1)
      invariant (forall j :: 0 <= j < i ==> opts[j].0 != "source") ==> fields["source"] == Str(source)
      invariant (forall j :: 0 <= j < i ==> opts[j].0 != "target") ==> fields["target"] == Str(target)
    {
      assert OptionKeys(opts[..i + 1]) == OptionKeys(opts[..i]) + {opts[i].0} by {
        assert forall j :: 0 <= j < i ==> opts[..i + 1][j] == opts[..i][j];
      }
      fields := fields[opts[i].0 := ToJson(opts[i].1)];
      i := i + 1;
    }
    assert opts[..i] == opts;
    req := Request("POST", "/_replicate", map["Content-Type" := ApplicationJson], Some(Obj(fields)));
  }

  // ---------------------------------------------------------------------
  // GetMembership

  /** What `GetMembership` returns as written, given the reply and the
      outcome of decoding its body. A refusal with status 400 means the
      server has no `_membership`; any other error that is not a status
      error is returned; a status error with another code falls out of
      the type switch and the call goes on to decode a body the error
      parser has already read and closed. */
  function GetMembershipAsWritten(reply: Reply, decoded: Option<Error>): (r: Option<Error>)
    ensures reply.Unreachable? ==> r == Some(reply.error)
    ensures reply.Refused? && !reply.error.Status? ==> r == Some(reply.error)
    ensures reply.Refused? && reply.error.Status? && reply.error.code == 400 ==> r == Some(NotSupportedByServer)
    ensures reply.Refused? && reply.error.Status? && reply.error.code != 400 ==> r == decoded
    ensures reply.Answered? ==> r == decoded
  {
    match reply
    case Unreachable(e) => Some(e)
    case Refused(_, e) =>
      if e.Status? then (if e.code == 400 then Some(NotSupportedByServer) else decoded)
      else Some(e)
    case Answered(_, _) => decoded
  }

  /** `GetMembership` returning every status error other than 400. */
  function GetMembership(reply: Reply, decoded: Option<Error>): (r: Option<Error>)
    ensures reply.Refused? && reply.error.Status? && reply.error.code == 400 ==> r == Some(NotSupportedByServer)
    ensures !reply.Answered? && !(reply.error.Status? && reply.error.code == 400) ==> r == Some(reply.error)
    ensures reply.Answered? ==> r == decoded
    ensures r.None? ==> reply.Answered?
  {
    match reply
    case Unreachable(e) => Some(e)
    case Refused(_, e) =>
      if e.Status? && e.code == 400 then Some(NotSupportedByServer) else Some(e)
    case Answered(_, _) => decoded
  }

  /** A refusal with any status other than 400 is answered, in the
      source, by what decoding the response body a second time gives
      instead of by the status error. `parseError` has already read and
      closed that body, so this is a read error on a closed body. */
  lemma MembershipStatusLost(status: int, verb: string, url: string, code: string, reason: string,
                             decoded: Option<Error>)
    requires status >= 400 && status != 400
    ensures var e := Status(status, verb, url, code, reason);
      && GetMembershipAsWritten(Refused(status, e), decoded) == decoded
      && GetMembership(Refused(status, e), decoded) == Some(e)
      && (decoded != Some(e) ==> GetMembershipAsWritten(Refused(status, e), decoded) != GetMembership(Refused(status, e), decoded))
  {
  }

  /** Both map a 400 refusal to "Not supported by server" and agree on
      every reply that is not a status error with another code. */
  lemma MembershipOtherwiseAgrees(reply: Reply, decoded: Option<Error>)
    requires !(reply.Refused? && reply.error.Status? && reply.error.code != 400)
    ensures GetMembershipAsWritten(reply, decoded) == GetMembership(reply, decoded)
    ensures reply.Refused? && reply.error.Status? ==> GetMembershipAsWritten(reply, decoded) == Some(NotSupportedByServer)
  {
  }
}
