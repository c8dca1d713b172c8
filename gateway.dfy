/**
 * `api_post`: one POST of a JSON payload to the configured endpoint and the
 * reading of its answer as `(ok, value)`.
 *
 * The HTTP call itself (the `requests` library, its 15-second timeout and the
 * JSON decoder) is not modelled: its outcome arrives as a `Transport` value,
 * either a failure with the text of the exception it raised or a response
 * with its `ok` flag and the decoded body.
 */
module Gateway {
  import opened Wrappers
  import opened Text

  /** A decoded JSON value as Python's `json` module produces it. */
  datatype Json =
    | JNull
    | JBool(b: bool)
    | JInt(i: int)
    | JFloat(f: real)
    | JString(s: string)
    | JArray(items: seq<Json>)
    | JObject(members: map<string, Json>)

  /** Python's `bool(v)`. */
  predicate Truthy(v: Json)
  {
    match v
    case JNull => false
    case JBool(b) => b
    case JInt(i) => i != 0
    case JFloat(f) => f != 0.0
    case JString(s) => s != []
    case JArray(items) => items != []
    case JObject(members) => members != map[]
  }

  /** The Python type name of a decoded value. */
  function TypeName(v: Json): string
  {
    match v
    case JNull => "NoneType"
    case JBool(_) => "bool"
    case JInt(_) => "int"
    case JFloat(_) => "float"
    case JString(_) => "str"
    case JArray(_) => "list"
    case JObject(_) => "dict"
  }

  /** What the network call produced. */
  datatype Transport = Broken(cause: string) | Delivered(ok: bool, body: Json)

  /** The pair `(ok, res)` that `api_post` returns. */
  datatype Reply = Reply(ok: bool, value: Json)

  /** A POST of `body` to `url`. */
  datatype Request = Request(url: string, body: map<string, string>)

  /** One call of `api_post`: the request it issued, if any, and its reply. */
  datatype Call = Call(sent: Option<Request>, reply: Reply)

  const CONFIG_MISSING := "API_BASE belum diisi di Secrets."
  const NOT_PROCESSED := "Gagal memproses."
  const CONNECTION_ERROR := "Kesalahan koneksi: "

  /** The endpoint as loaded: the `API_BASE` secret, default empty, stripped. */
  function ApiBase(secret: Option<string>): (r: string)
    ensures Stripped(r)
    ensures r == [] <==> secret.None? || AllSpace(secret.value)
  {
    TrimEmptyIff(secret.GetOr(""));
    Trim(secret.GetOr(""))
  }

  /** The server accepted the request: the response is `ok` and its body is an
      object whose `success` member is truthy (a missing member reads as `None`). */
  predicate Succeeded(t: Transport)
  {
    t.Delivered? && t.ok && t.body.JObject? && "success" in t.body.members && Truthy(t.body.members["success"])
  }

  /** The text of the `AttributeError` raised by calling `.get` on a body that is not an object. */
  function NoGetError(body: Json): string
  {
    "'" + TypeName(body) + "' object has no attribute 'get'"
  }

  /** The reply `api_post` gives once a request went out. */
  function Classify(t: Transport): (r: Reply)
    ensures r.ok <==> Succeeded(t)
    ensures r.ok ==> r.value == t.body
    ensures t.Broken? ==> r.value == JString(CONNECTION_ERROR + t.cause)
    ensures t.Delivered? && !t.body.JObject? ==> r.value == JString(CONNECTION_ERROR + NoGetError(t.body))
    ensures t.Delivered? && t.body.JObject? && !r.ok ==>
      r.value == if "message" in t.body.members then t.body.members["message"] else JString(NOT_PROCESSED)
  {
    match t
    case Broken(cause) => Reply(false, JString(CONNECTION_ERROR + cause))
    case Delivered(ok, body) =>
      if !body.JObject? then Reply(false, JString(CONNECTION_ERROR + NoGetError(body)))
      else
        var success := ok && "success" in body.members && Truthy(body.members["success"]);
        if success then Reply(true, body)
        else Reply(false, if "message" in body.members then body.members["message"] else JString(NOT_PROCESSED))
  }

  /** `api_post(payload)` against endpoint `apiBase`; `network` is what the
      call would produce and is consulted only when a request goes out. */
  function ApiPost(apiBase: string, payload: map<string, string>, network: Transport): (c: Call)
    ensures c.sent.None? <==> apiBase == []
    ensures apiBase == [] ==> c.reply == Reply(false, JString(CONFIG_MISSING))
    ensures apiBase != [] ==> c.sent == Some(Request(apiBase, payload)) && c.reply == Classify(network)
  {
    if apiBase == [] then Call(None, Reply(false, JString(CONFIG_MISSING)))
    else Call(Some(Request(apiBase, payload)), Classify(network))
  }

  /** With no endpoint nothing is sent, and what the network would have said
      makes no difference. */
  lemma NoEndpointNoCall(secret: Option<string>, payload: map<string, string>, n1: Transport, n2: Transport)
    requires secret.None? || AllSpace(secret.value)
    ensures ApiPost(ApiBase(secret), payload, n1) == ApiPost(ApiBase(secret), payload, n2)
    ensures ApiPost(ApiBase(secret), payload, n1) == Call(None, Reply(false, JString(CONFIG_MISSING)))
  {
  }

  /** A successful reply carries a body that is itself a success: delivering
      it again gives the same reply. */
  lemma SuccessIsStable(t: Transport)
    requires Classify(t).ok
    ensures Classify(Delivered(true, Classify(t).value)) == Classify(t)
  {
  }

  /** The connection-error text keeps the cause intact after its prefix. */
  lemma ConnectionCauseKept(cause: string)
    ensures var v := Classify(Broken(cause)).value;
      v.JString? && v.s[..|CONNECTION_ERROR|] == CONNECTION_ERROR && v.s[|CONNECTION_ERROR|..] == cause
  {
  }

  /** A failed transport, a body that is not an object, a response that is not
      `ok`, or a `success` member that is missing or falsy: each fails. */
  lemma FailureCases(ok: bool, members: map<string, Json>, cause: string, other: Json)
    requires !other.JObject?
    ensures !Classify(Broken(cause)).ok
    ensures !Classify(Delivered(ok, other)).ok
    ensures !Classify(Delivered(false, JObject(members))).ok
    ensures ("success" !in members || !Truthy(members["success"])) ==> !Classify(Delivered(ok, JObject(members))).ok
  {
  }
}
