/** The HTTP client's interceptors (src/api/client.ts): the per-endpoint
    request rate limiter with its periodic cleanup, the bearer token, the
    translation of failed requests into error messages, and the status
    check. The clock is a parameter. */
module ApiClient {
  import opened Wrappers
  import opened Text
  import opened Js

  /** `requestCount`: request key to the millisecond it was admitted. */
  type Counts = map<string, int>

  const MaxRequestsPerMinute := 60
  const WindowMs := 60000
  const RateLimited := "Taxa de requisições excedida. Aguarde um momento."

  /** `config.url || 'unknown'`: an absent or empty URL is `unknown`. */
  function Endpoint(url: Option<string>): (r: string)
    ensures r != ""
    ensures url.Some? && url.value != "" ==> r == url.value
  {
    if url.Some? && url.value != "" then url.value else "unknown"
  }

  /** The key of an admitted request: `${endpoint}_${now}`. */
  function RequestKey(endpoint: string, now: int): (k: string)
    ensures StartsWith(k, endpoint)
  {
    endpoint + "_" + IntToString(now)
  }

  /** An entry counts against `endpoint` at time `now`: its key starts with
      the endpoint and its time is within the last minute. */
  predicate Recent(m: Counts, k: string, endpoint: string, now: int)
    requires k in m
  {
    StartsWith(k, endpoint) && m[k] > now - WindowMs
  }

  /** The entries that count against `endpoint` at time `now`. */
  function RecentKeys(m: Counts, endpoint: string, now: int): (r: set<string>)
    ensures r <= m.Keys
    ensures forall k | k in m :: k in r <==> Recent(m, k, endpoint, now)
  {
    set k | k in m.Keys && Recent(m, k, endpoint, now)
  }

  /** The request interceptor's rate check: with 60 or more recent entries
      the request is rejected and nothing is recorded; otherwise exactly the
      request's key is set to `now`, overwriting an entry of the same
      millisecond. */
  function Admit(m: Counts, url: Option<string>, now: int): (r: Result<Counts, Thrown>)
    ensures r.Err? <==> |RecentKeys(m, Endpoint(url), now)| >= MaxRequestsPerMinute
    ensures r.Err? ==> r.error == Error(RateLimited)
    ensures r.Ok? ==> var key := RequestKey(Endpoint(url), now);
      && r.value.Keys == m.Keys + {key}
      && r.value[key] == now
      && forall k | k in m && k != key :: r.value[k] == m[k]
  {
    var endpoint := Endpoint(url);
    if |RecentKeys(m, endpoint, now)| >= MaxRequestsPerMinute then Err(Error(RateLimited))
    else Ok(m[RequestKey(endpoint, now) := now])
  }

  /** The entries among `keys` that count against `endpoint` at `now`. */
  ghost function RecentAmong(m: Counts, keys: set<string>, endpoint: string, now: int): set<string> {
    set k | k in keys && k in m && Recent(m, k, endpoint, now)
  }

  /** One more key visited by the counting loop adds one to the count
      exactly when that entry counts. */
  lemma RecentAmongStep(m: Counts, keys: set<string>, k: string, endpoint: string, now: int)
    requires k in m && k !in keys
    ensures Recent(m, k, endpoint, now) ==>
      |RecentAmong(m, keys + {k}, endpoint, now)| == |RecentAmong(m, keys, endpoint, now)| + 1
    ensures !Recent(m, k, endpoint, now) ==>
      |RecentAmong(m, keys + {k}, endpoint, now)| == |RecentAmong(m, keys, endpoint, now)|
  {
    if Recent(m, k, endpoint, now) {
      assert RecentAmong(m, keys + {k}, endpoint, now) == RecentAmong(m, keys, endpoint, now) + {k};
    } else {
      assert RecentAmong(m, keys + {k}, endpoint, now) == RecentAmong(m, keys, endpoint, now);
    }
  }

  /** The counting loop of the request interceptor, over the map's entries
      in any order. */
  method CountRecent(m: Counts, endpoint: string, now: int) returns (count: nat)
    ensures count == |RecentKeys(m, endpoint, now)|
  {
    count := 0;
    var remaining := m.Keys;
    ghost var done: set<string> := {};
    while remaining != {}
      invariant remaining + done == m.Keys && remaining !! done
      invariant count == |RecentAmong(m, done, endpoint, now)|
      decreases |remaining|
    {
      var k :| k in remaining;
      RecentAmongStep(m, done, k, endpoint, now);
      if StartsWith(k, endpoint) && m[k] > now - WindowMs {
        count := count + 1;
      }
      remaining := remaining - {k};
      done := done + {k};
    }
    assert RecentAmong(m, done, endpoint, now) == RecentKeys(m, endpoint, now);
  }

  /** The interceptor's decision computed with the counting loop. */
  method AdmitRequest(m: Counts, url: Option<string>, now: int) returns (r: Result<Counts, Thrown>)
    ensures r == Admit(m, url, now)
  {
    var endpoint := Endpoint(url);
    var count := CountRecent(m, endpoint, now);
    if count >= MaxRequestsPerMinute {
      r := Err(Error(RateLimited));
    } else {
      r := Ok(m[RequestKey(endpoint, now) := now]);
    }
  }

  /** The minute-by-minute cleanup: entries older than one minute are
      dropped, every other entry is kept as it was. */
  function Cleanup(m: Counts, now: int): (r: Counts)
    ensures forall k :: k in r <==> k in m && m[k] >= now - WindowMs
    ensures forall k | k in r :: r[k] == m[k]
  {
    map k | k in m && m[k] >= now - WindowMs :: m[k]
  }

  // ---------------------------------------------------------------------
  // Properties of the limiter

  /** An admitted request adds exactly its own key to those that count
      against its endpoint, unless a request of the same millisecond already
      put it there. */
  lemma AdmitCountsItself(m: Counts, url: Option<string>, now: int)
    requires Admit(m, url, now).Ok?
    ensures var e := Endpoint(url);
      RecentKeys(Admit(m, url, now).value, e, now) == RecentKeys(m, e, now) + {RequestKey(e, now)}
  {
    var e := Endpoint(url);
    var m' := Admit(m, url, now).value;
    var key := RequestKey(e, now);
    forall k | k in RecentKeys(m', e, now)
      ensures k in RecentKeys(m, e, now) + {key}
    {
      if k != key {
        assert m'[k] == m[k];
      }
    }
    forall k | k in RecentKeys(m, e, now) + {key}
      ensures k in RecentKeys(m', e, now)
    {
      if k != key {
        assert m'[k] == m[k];
      }
    }
  }

  /** Requests in the same millisecond share one entry, so a burst within
      one millisecond counts once. */
  lemma SameMillisecondCountsOnce(m: Counts, url: Option<string>, now: int)
    requires Admit(m, url, now).Ok?
    ensures var once := Admit(m, url, now).value;
      Admit(once, url, now).Ok? ==> Admit(once, url, now).value == once
  {
  }

  /** Requests to a longer URL that starts with the endpoint count against
      the endpoint too. */
  lemma LongerUrlsShareTheBudget(endpoint: string, longer: string, m: Counts, now: int)
    requires RequestKey(endpoint + longer, now) in m && m[RequestKey(endpoint + longer, now)] > now - WindowMs
    ensures RequestKey(endpoint + longer, now) in RecentKeys(m, endpoint, now)
  {
    var k := RequestKey(endpoint + longer, now);
    assert k == endpoint + (longer + "_" + IntToString(now));
  }

  /** Cleaning up at any time up to `now` never changes a decision taken at
      `now`: it only drops entries that no longer count. */
  lemma CleanupKeepsDecisions(m: Counts, earlier: int, url: Option<string>, now: int)
    requires earlier <= now
    ensures RecentKeys(Cleanup(m, earlier), Endpoint(url), now) == RecentKeys(m, Endpoint(url), now)
    ensures Admit(Cleanup(m, earlier), url, now).Err? <==> Admit(m, url, now).Err?
  {
  }

  // ---------------------------------------------------------------------
  // The token

  /** The client's token: `string | null`. */
  datatype Session = Session(token: Option<string>)

  function SetToken(s: Session, token: Option<string>): (r: Session)
    ensures GetToken(r) == token
  {
    s.(token := token)
  }

  function GetToken(s: Session): Option<string> {
    s.token
  }

  /** The `Authorization` header the request interceptor adds: present
      exactly when the token is set and non-empty. */
  function AuthorizationHeader(s: Session): (r: Option<string>)
    ensures r.Some? <==> s.token.Some? && s.token.value != ""
    ensures r.Some? ==> r.value == "Bearer " + s.token.value
  {
    match s.token
    case Some(t) => if t != "" then Some("Bearer " + t) else None
    case None => None
  }

  /** The request headers after the interceptor: the `Authorization` header
      is set from the token and every other header is kept. */
  function WithAuthorization(s: Session, headers: map<string, string>): (r: map<string, string>)
    ensures forall h | h in headers && h != "Authorization" :: h in r && r[h] == headers[h]
    ensures AuthorizationHeader(s).Some? ==> "Authorization" in r && r["Authorization"] == AuthorizationHeader(s).value
    ensures AuthorizationHeader(s).None? ==> r == headers
  {
    match AuthorizationHeader(s)
    case Some(v) => headers["Authorization" := v]
    case None => headers
  }

  // ---------------------------------------------------------------------
  // Failed requests

  /** What axios reports for a failed request: the response body if a
      response arrived, whether a request was sent, and the error's own
      message. */
  datatype RequestFailure = RequestFailure(response: Option<JsValue>, requestSent: bool, message: string)

  const UnknownError := "Unknown error"
  const NoResponse := "No response from server. Please check your connection."
  const RequestFailed := "Request failed"

  /** The message of the server's error body: an array is joined with
      `, `, another truthy value is converted to a string, and anything
      else becomes "Unknown error". */
  function BodyMessage(body: JsValue): (r: string)
    ensures !Truthy(GetOptional(body, "message")) ==> r == UnknownError
    ensures GetOptional(body, "message").JsString? && Truthy(GetOptional(body, "message")) ==>
      r == GetOptional(body, "message").s
    ensures GetOptional(body, "message").JsArray? ==> r == JoinValues(GetOptional(body, "message").items, ", ")
    ensures Truthy(GetOptional(body, "message")) && !GetOptional(body, "message").JsArray? ==>
      r == ToJsString(GetOptional(body, "message"))
  {
    var message := GetOptional(body, "message");
    match message
    case JsArray(items) => JoinValues(items, ", ")
    case _ => if Truthy(message) then ToJsString(message) else UnknownError
  }

  /** The response interceptor's error handler: the error it throws. */
  function TranslateError(f: RequestFailure): (r: Thrown)
    ensures r.Error?
    ensures f.response.Some? ==> r == Error(BodyMessage(f.response.value))
    ensures f.response.None? && f.requestSent ==> r.message == NoResponse
    ensures f.response.None? && !f.requestSent ==>
      r.message == (if f.message != "" then f.message else RequestFailed)
  {
    match f.response
    case Some(body) => Error(BodyMessage(body))
    case None =>
      if f.requestSent then Error(NoResponse)
      else Error(if f.message != "" then f.message else RequestFailed)
  }

  /** `validateStatus: () => true`. */
  function ValidateStatus(status: int): bool {
    true
  }

  /** What a request resolves to once the server answered: the body when the
      status is accepted, the translated error otherwise. */
  function Deliver(status: int, body: JsValue): Result<JsValue, Thrown> {
    if ValidateStatus(status) then Ok(body)
    else Err(TranslateError(RequestFailure(Some(body), true, "Request failed with status code " + IntToString(status))))
  }

  /** Every status is accepted, so a server error reaches the caller as an
      ordinary body and the error translation only ever sees failures
      without a response. */
  lemma EveryStatusIsDelivered(status: int, body: JsValue)
    ensures Deliver(status, body) == Ok(body)
  {
  }

  /** An error body whose `message` is a list of texts, as validation
      errors arrive, is shown as the texts joined with `, `. */
  lemma ListMessageIsJoined(first: string, second: string)
    ensures TranslateError(RequestFailure(Some(JsObject(map["message" := JsArray([JsString(first), JsString(second)])])), true, ""))
      == Error(first + ", " + second)
  {
    var items := [JsString(first), JsString(second)];
    var body := JsObject(map["message" := JsArray(items)]);
    assert items[1..] == [JsString(second)];
    assert JoinValues(items[1..], ", ") == second;
    assert JoinValues(items, ", ") == first + ", " + second;
    assert GetOptional(body, "message") == JsArray(items);
  }

  /** An error body whose `message` is a list of texts is shown as those
      texts joined with `, `, whatever their number. */
  lemma {:induction false} ArrayMessageIsJoined(texts: seq<string>)
    ensures BodyMessage(JsObject(map["message" := JsArray(Map(t => JsString(t), texts))])) == Join(texts, ", ")
  {
    JoinValuesOfStrings(texts, ", ");
  }

  /** A server error body with a text message is shown with that message,
      whatever the status. */
  lemma TextMessageIsShown(body: JsValue, message: string)
    requires body.JsObject? && "message" in body.fields && body.fields["message"] == JsString(message)
    requires message != ""
    ensures TranslateError(RequestFailure(Some(body), true, "")) == Error(message)
  {
  }
}
