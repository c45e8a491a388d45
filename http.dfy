/** What the client hands to, and gets back from, the HTTP transport: JSON
    values, request options, the requests it would send, the errors it
    reports, and the three ways a request can come back. The transport
    itself (connections, JSON encoding, status parsing) is not modelled:
    an operation either rejects its arguments before sending anything or
    yields the `Request` it sends, and what the server answered is a
    parameter of the operations that look at it. */
module Http {

  import opened Wrappers
  import Text

  /** A JSON value, as `encoding/json` marshals Go maps, slices and scalars. */
  datatype Value =
    | Null
    | Bool(b: bool)
    | Int(i: int)
    | Str(s: string)
    | Arr(items: seq<Value>)
    | Obj(fields: map<string, Value>)

  /** A list of Go strings as `json.Marshal` writes it: an array of JSON strings, in order. */
  function StringValues(list: seq<string>): (r: seq<Value>)
    ensures |r| == |list| && forall i :: 0 <= i < |list| ==> r[i] == Str(list[i])
  {
    if list == [] then [] else StringValues(list[..|list| - 1]) + [Str(list[|list| - 1])]
  }

  /** A value stored in an `Options` map. Go keeps these as `interface{}`;
      strings, booleans and integers are the kinds the client is given. */
  datatype OptionValue = Text(s: string) | Flag(b: bool) | Number(n: int)

  /** An `Options` map, in the order its pairs are visited. Go does not fix
      that order; every property of the model holds for the order given. */
  type Options = seq<(string, OptionValue)>

  /** Go map keys are unique. */
  predicate DistinctKeys(opts: Options)
  {
    forall i, j :: 0 <= i < j < |opts| ==> opts[i].0 != opts[j].0
  }

  /** `options[key]`: the value stored under `key`, if any. */
  function Lookup(opts: Options, key: string): (r: Option<OptionValue>)
    ensures r.None? <==> forall i :: 0 <= i < |opts| ==> opts[i].0 != key
    ensures r.Some? ==> exists i :: 0 <= i < |opts| && opts[i] == (key, r.value)
  {
    if opts == [] then None
    else if opts[0].0 == key then Some(opts[0].1)
    else
      var r := Lookup(opts[1..], key);
      assert r.Some? ==> opts[1..][0..] == opts[1..];
      assert forall i :: 1 <= i < |opts| ==> opts[i] == opts[1..][i - 1];
      r
  }

  /** `delete(options, key)`. */
  function Remove(opts: Options, key: string): (r: Options)
    ensures forall i :: 0 <= i < |r| ==> r[i].0 != key
    ensures forall p :: p in r <==> p in opts && p.0 != key
    ensures DistinctKeys(opts) ==> DistinctKeys(r)
  {
    if opts == [] then []
    else if opts[0].0 == key then Remove(opts[1..], key)
    else [opts[0]] + Remove(opts[1..], key)
  }

  /** `fmt.Sprintf("%v", v)`. */
  function Format(v: OptionValue): string
  {
    match v
    case Text(s) => s
    case Flag(b) => if b then "true" else "false"
    case Number(n) => Text.IntToDecimal(n)
  }

  /** The JSON value an option is marshalled to. */
  function ToJson(v: OptionValue): Value
  {
    match v
    case Text(s) => Str(s)
    case Flag(b) => Bool(b)
    case Number(n) => Int(n)
  }

  /** The error values the client returns. The first fourteen are the
      client's own `errors.New` values, each named after its text
      ("Login already exists" is `LoginExists`). */
  datatype Error =
    | NotASlice
    | UnsupportedDocumentType
    | MapMissingId
    | MapMissingRev
    | DocumentMissingId
    | DocumentMissingRev
    | InvalidArgumentType
    | ContinuousNotSupported
    | OnlyContinuousSupported
    | CountNotPositive
    | EmptyRevision
    | NotSupportedByServer
    | LoginExists
    | RoleExists
      /** The transport's `*Error`: a status of 400 or more, with the
          server's error code and reason. */
    | Status(code: int, verb: string, url: string, errorCode: string, reason: string)
      /** Any other error, by its text (a network failure, a body that
          does not decode). */
    | Failure(text: string)
      /** An unrecovered runtime panic: the Go program does not return. */
    | Panic

  const ApplicationJson := "application/json"

  /** A request the client sends: HTTP verb, path below the server URL,
      headers set with `Header.Set`, and the JSON body if there is one. */
  datatype Request = Request(verb: string, path: string, headers: map<string, string>, body: Option<Value>)

  /** What an operation does before any network traffic: reject its
      arguments, or send a request. */
  datatype Call = Reject(error: Error) | Send(request: Request)

  /** How a request comes back from the transport: no response at all (the
      Go `*http.Response` is nil), a response with status 400 or more
      (turned into `error`), or a response with a lower status. */
  datatype Reply =
    | Unreachable(error: Error)
    | Refused(status: int, error: Error)
    | Answered(status: int, body: string)
}
