/** The front controller `app/index.php`: which request hosts are served, and how the body of an
    API call is checked and dispatched to an endpoint. The endpoints themselves are a parameter. */
module Front {

  import opened Wrappers
  import opened Values
  import Text

  const Prefix := "dotsmesh."

  predicate HasPrefix(host: string)
  {
    |host| >= |Prefix| && host[..|Prefix|] == Prefix
  }

  /** The internal host name: the lower-cased rest after an exact `dotsmesh.` prefix, or `null`
      for a host without it. */
  function InternalHost(host: string): (r: Option<string>)
    ensures r.Some? <==> HasPrefix(host)
    ensures r.Some? ==> |r.value| == |host| - |Prefix|
    ensures r.Some? ==> forall i :: 0 <= i < |r.value| ==> r.value[i] == Text.LowerChar(host[|Prefix| + i])
  {
    if HasPrefix(host) then Some(Text.Lower(host[|Prefix|..])) else None
  }

  /** `array_search($host, DOTSMESH_OBSERVER_HOSTS) !== false` with PHP's loose comparison: a
      string is found by an equal entry, `null` by an empty one. */
  predicate Configured(internal: Option<string>, hosts: seq<string>)
  {
    match internal
    case Some(h) => h in hosts
    case None => "" in hosts
  }

  /** The host check: the internal host when it is configured, otherwise the 503 "Unsupported
      host!" answer. */
  function AcceptHost(host: string, hosts: seq<string>): (r: Option<Option<string>>)
    ensures r.Some? <==>
      (HasPrefix(host) && Text.Lower(host[|Prefix|..]) in hosts) || (!HasPrefix(host) && "" in hosts)
    ensures r.Some? ==> r.value == InternalHost(host)
    ensures r.Some? && HasPrefix(host) ==> r.value == Some(Text.Lower(host[|Prefix|..]))
  {
    var internal := InternalHost(host);
    if Configured(internal, hosts) then Some(internal) else None
  }

  /** A configured host that is already lower case is served under `dotsmesh.` followed by any
      upper/lower-case spelling of it. */
  lemma {:induction false} AcceptsAnySpelling(h: string, spelled: string, hosts: seq<string>)
    requires h in hosts && |spelled| == |h|
    requires forall i :: 0 <= i < |h| ==> Text.LowerChar(spelled[i]) == h[i]
    ensures AcceptHost(Prefix + spelled, hosts) == Some(Some(h))
  {
    var host := Prefix + spelled;
    assert host[..|Prefix|] == Prefix;
    assert host[|Prefix|..] == spelled;
    var r := InternalHost(host).value;
    assert forall i :: 0 <= i < |r| ==> r[i] == h[i] by {
      forall i | 0 <= i < |r| ensures r[i] == h[i] {
        assert host[|Prefix| + i] == spelled[i];
      }
    }
    assert r == h;
  }

  /** The prefix itself is case-sensitive: an upper-case `DOTSMESH.` is served only through an
      empty entry. */
  lemma UpperCasePrefixRejected(rest: string, hosts: seq<string>)
    requires "" !in hosts
    ensures AcceptHost("DOTSMESH." + rest, hosts) == None
  {
    var host := "DOTSMESH." + rest;
    assert host[0] == 'D';
  }

  /** The outcome of an endpoint's `run`: a result, an `EndpointError` with its code and message,
      or any other exception. */
  datatype Outcome = Returned(result: Value) | Raised(code: string, message: string) | Crashed

  /** Runs the endpoint class registered under a method name on `args` and `options`. */
  type Endpoints = (string, Value, Value) -> Outcome

  /** The JSON envelopes of the `POST /` handler. */
  datatype Response =
    | Success(result: Value)
    | Failure(code: string, message: string)
    | InvalidRequestData

  /** What the request produces: the 503 for a host that is not served, no response from the
      route (no `api` query parameter), a JSON envelope, or an exception passed on to the
      framework's error handler. */
  datatype Reply = Unsupported | NoResponse | Json(response: Response) | Uncaught

  /** The method table of the handler. */
  const Methods := [
    "user.changes.signup",
    "user.changes.addPushSubscription",
    "user.changes.delete",
    "user.changes.updateSubscriptions",
    "host.changes.notify",
    "utilities.getPushKeys"
  ]

  /** The value under a string key of a decoded JSON object (`isset`: a `null` value counts as
      missing). The keys of a PHP array are distinct; the first entry with the key is taken. */
  function Field(v: Value, name: string): (r: Option<Value>)
    ensures r.Some? ==> v.Array? && r.value != Null && (StrKey(name), r.value) in v.entries
    ensures !v.Array? ==> r.None?
    ensures v.Array? ==> forall i :: FirstWithKey(v.entries, name, i) ==>
      r == (if v.entries[i].1 == Null then None else Some(v.entries[i].1))
  {
    if !v.Array? then None else FieldIn(v.entries, name)
  }

  /** Entry `i` is the first one under the key `name`. */
  predicate FirstWithKey(entries: seq<(ArrayKey, Value)>, name: string, i: int)
  {
    0 <= i < |entries| && entries[i].0 == StrKey(name) &&
    forall j :: 0 <= j < i ==> entries[j].0 != StrKey(name)
  }

  function FieldIn(entries: seq<(ArrayKey, Value)>, name: string): (r: Option<Value>)
    ensures r.Some? ==> r.value != Null && (StrKey(name), r.value) in entries
    ensures (forall i :: 0 <= i < |entries| ==> entries[i].0 != StrKey(name)) ==> r.None?
    ensures forall i :: FirstWithKey(entries, name, i) ==>
      r == (if entries[i].1 == Null then None else Some(entries[i].1))
  {
    if entries == [] then None
    else if entries[0].0 == StrKey(name) then
      if entries[0].1 != Null then Some(entries[0].1) else None
    else FieldIn(entries[1..], name)
  }

  /** The body shape the handler accepts: an array whose `method` is a string and whose `args`
      and `options` are arrays. */
  predicate WellFormedRequest(body: Value)
  {
    var m := Field(body, "method");
    var a := Field(body, "args");
    var o := Field(body, "options");
    m.Some? && m.value.Str? && a.Some? && a.value.Array? && o.Some? && o.value.Array?
  }

  /** The `POST /` handler on the decoded body (`null` when the body is not JSON). */
  function HandlePost(hasApi: bool, body: Value, run: Endpoints): (r: Reply)
    ensures r != Unsupported
    ensures r == NoResponse <==> !hasApi
    ensures hasApi ==> (r == Json(InvalidRequestData) <==> !WellFormedRequest(body))
  {
    if !hasApi then NoResponse
    else if !WellFormedRequest(body) then Json(InvalidRequestData)
    else
      var name := Field(body, "method").value.s;
      if name !in Methods then Json(Failure("invalidEndpoint", "Invalid method!"))
      else
        match run(name, Field(body, "args").value, Field(body, "options").value)
        case Returned(v) => Json(Success(v))
        case Raised(code, message) => Json(Failure(code, message))
        case Crashed => Uncaught
  }

  /** A whole request: the host check first, then the route. */
  function Serve(host: string, hosts: seq<string>, hasApi: bool, body: Value, run: Endpoints): (r: Reply)
    ensures r == Unsupported <==> AcceptHost(host, hosts).None?
  {
    if AcceptHost(host, hosts).None? then Unsupported else HandlePost(hasApi, body, run)
  }

  /** An ill-formed body, or a method outside the table, never reaches an endpoint: the reply
      is the same whatever the endpoints do. */
  lemma {:induction false} EndpointsUnreached(hasApi: bool, body: Value, run1: Endpoints, run2: Endpoints)
    requires !WellFormedRequest(body) || Field(body, "method").value.s !in Methods
    ensures HandlePost(hasApi, body, run1) == HandlePost(hasApi, body, run2)
  {
  }

  /** A method outside the table gets the `invalidEndpoint` error. */
  lemma UnknownMethod(body: Value, run: Endpoints)
    requires WellFormedRequest(body) && Field(body, "method").value.s !in Methods
    ensures HandlePost(true, body, run) == Json(Failure("invalidEndpoint", "Invalid method!"))
  {
  }

  /** A method in the table gets its endpoint's result, or the code and message of the
      `EndpointError` it raised; any other exception leaves the handler. */
  lemma KnownMethod(body: Value, run: Endpoints)
    requires WellFormedRequest(body) && Field(body, "method").value.s in Methods
    ensures var o := run(Field(body, "method").value.s, Field(body, "args").value, Field(body, "options").value);
      HandlePost(true, body, run) ==
        match o
        case Returned(v) => Json(Success(v))
        case Raised(code, message) => Json(Failure(code, message))
        case Crashed => Uncaught
  {
  }

  /** The JSON text of an envelope, as the array `json_encode` is given. */
  function Render(r: Response): (v: Value)
    ensures v.Array? && |v.entries| >= 1 && v.entries[0].0 == StrKey("status") && v.entries[0].1.Str?
  {
    match r
    case Success(result) => Array([(StrKey("status"), Str("ok")), (StrKey("result"), result)])
    case Failure(code, message) =>
      Array([(StrKey("status"), Str("error")), (StrKey("code"), Str(code)), (StrKey("message"), Str(message))])
    case InvalidRequestData => Array([(StrKey("status"), Str("invalidRequestData"))])
  }

  /** The `status` field tells the three envelopes apart, and the rest of the envelope gives
      back what it carries. */
  lemma RenderDistinguishes(r: Response)
    ensures Field(Render(r), "status") == Some(Str(
      match r case Success(_) => "ok" case Failure(_, _) => "error" case InvalidRequestData => "invalidRequestData"))
    ensures r.Success? && r.result != Null ==> Field(Render(r), "result") == Some(r.result)
    ensures r.Failure? ==> Field(Render(r), "code") == Some(Str(r.code)) && Field(Render(r), "message") == Some(Str(r.message))
  {
    var e := Render(r).entries;
    assert FieldIn(e, "status") == Some(e[0].1);
    if r.Success? {
      assert FieldIn(e[1..], "result") == FieldIn(e[2..], "result") || e[1].0 == StrKey("result");
    }
    if r.Failure? {
      assert "code" != "status" && "message" != "status" && "message" != "code";
      assert FieldIn(e, "code") == FieldIn(e[1..], "code");
      assert FieldIn(e, "message") == FieldIn(e[1..], "message") == FieldIn(e[2..], "message");
    }
  }
}
