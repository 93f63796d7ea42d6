/**
 * src/qz-tray-service-secure.ts: the browser adapter's side of the oracle.
 * The certificate and signature callbacks are functions from what `fetch`
 * delivered to how the callback's promise settles; `getPrinters` normalises
 * what the agent reports.
 */
module SecureClient {
  import opened Wrappers
  import opened Js

  const ApiBaseUrl: string := "http://localhost:8000/api/qz-tray"
  const CertificateEndpoint: string := ApiBaseUrl + "/certificate"
  const SignEndpoint: string := ApiBaseUrl + "/sign"

  const HttpErrorPrefix: string := "HTTP error! Status: "
  const CertificateFallback: string := "Failed to get certificate"
  const SignatureFallback: string := "Failed to sign data"

  /** The result of `response.json()`: a value, or the parse error's message. */
  datatype Body = Parsed(json: JsValue) | Unparsable(error: string)

  /** What `fetch` delivered: a network failure's message, or a status and a body. */
  datatype Fetched = NetworkError(message: string) | Received(status: nat, body: Body)

  /** How the callback's promise settles. */
  datatype Settlement = Resolved(value: JsValue) | Rejected(reason: JsValue)

  /** An HTTP request as `fetch` is asked to send it. */
  datatype Request = Request(verb: string, url: string, headers: map<string, string>, body: Option<JsValue>)

  /** `response.ok`. */
  predicate Ok(status: nat)
  {
    200 <= status <= 299
  }

  /** V8's message for reading property `name` of `null`. */
  function NullPropertyError(name: string): string
  {
    "Cannot read properties of null (reading '" + name + "')"
  }

  /**
   * Reading property `name` of a parsed body: `None` is `undefined`. Reading
   * a property of `null` throws a TypeError, here with V8's message.
   */
  function Property(data: JsValue, name: string): Result<Option<JsValue>, string>
  {
    match data
    case JNull => Failure(NullPropertyError(name))
    case JObject(fields) => Success(if name in fields then Some(fields[name]) else None)
    case _ => Success(None)
  }

  /**
   * The shared shape of both callbacks: reject on a non-OK status, resolve
   * with `data[field]` when `data.success` and `data[field]` are both truthy,
   * otherwise reject with `data.message || fallback`. Anything thrown on the
   * way rejects with its message.
   */
  function Settle(fetched: Fetched, field: string, fallback: string): Settlement
  {
    match fetched
    case NetworkError(message) => Rejected(JStr(message))
    case Received(status, body) =>
      if !Ok(status) then Rejected(JStr(HttpErrorPrefix + NumberText(status)))
      else
        match body
        case Unparsable(error) => Rejected(JStr(error))
        case Parsed(data) =>
          match Property(data, "success")
          case Failure(error) => Rejected(JStr(error))
          case Success(success) =>
            var value := Property(data, field).value;
            if Truthy(success) && Truthy(value) then Resolved(value.value)
            else Rejected(Or(Property(data, "message").value, JStr(fallback)))
  }

  /** True when `fetched` is an OK response whose body is an object. */
  predicate OkObject(fetched: Fetched)
  {
    fetched.Received? && Ok(fetched.status) && fetched.body.Parsed? && fetched.body.json.JObject?
  }

  /** The field `name` of an OK object body, `None` when absent. */
  function Field(fetched: Fetched, name: string): Option<JsValue>
    requires OkObject(fetched)
  {
    var fields := fetched.body.json.fields;
    if name in fields then Some(fields[name]) else None
  }

  /** `GET certificate`: the request the certificate callback sends. */
  function CertificateRequest(): (req: Request)
    ensures req.url == ApiBaseUrl + "/certificate" && req.verb == "GET" && req.body == None
  {
    Request("GET", CertificateEndpoint, map[], None)
  }

  /**
   * The certificate callback: resolves with `data.certificate` only for an
   * OK response with truthy `success` and a non-empty certificate; a non-OK
   * status rejects with "HTTP error! Status: <status>"; an OK object body
   * otherwise rejects with its message, or a fixed text when there is none.
   * A network error or a body that is not JSON rejects with that error's
   * message, a `null` body with the TypeError from reading `success`, and
   * any other non-object body with the fixed text.
   */
  function CertificateSettlement(fetched: Fetched): (r: Settlement)
    ensures r.Resolved? ==> OkObject(fetched) && Truthy(Field(fetched, "success"))
                            && Truthy(Field(fetched, "certificate")) && Some(r.value) == Field(fetched, "certificate")
    ensures OkObject(fetched) && Truthy(Field(fetched, "success")) && Truthy(Field(fetched, "certificate")) ==> r.Resolved?
    ensures fetched.Received? && !Ok(fetched.status) ==>
      r == Rejected(JStr("HTTP error! Status: " + NumberText(fetched.status)))
    ensures OkObject(fetched) && !(Truthy(Field(fetched, "success")) && Truthy(Field(fetched, "certificate"))) ==>
      r == Rejected(Or(Field(fetched, "message"), JStr("Failed to get certificate")))
    ensures fetched.NetworkError? ==> r == Rejected(JStr(fetched.message))
    ensures fetched.Received? && Ok(fetched.status) && fetched.body.Unparsable? ==>
      r == Rejected(JStr(fetched.body.error))
    ensures fetched.Received? && Ok(fetched.status) && fetched.body == Parsed(JNull) ==>
      r == Rejected(JStr(NullPropertyError("success")))
    ensures fetched.Received? && Ok(fetched.status) && fetched.body.Parsed? &&
            !fetched.body.json.JObject? && !fetched.body.json.JNull? ==>
      r == Rejected(JStr("Failed to get certificate"))
  {
    Settle(fetched, "certificate", CertificateFallback)
  }

  /** The request the signature callback sends: a JSON POST of exactly `{data: toSign}`. */
  function SignRequest(toSign: string): (req: Request)
    ensures req.url == ApiBaseUrl + "/sign" && req.verb == "POST"
    ensures req.headers == map["Content-Type" := "application/json"]
    ensures req.body == Some(JObject(map["data" := JStr(toSign)]))
  {
    Request("POST", SignEndpoint, map["Content-Type" := "application/json"],
            Some(JObject(map["data" := JStr(toSign)])))
  }

  /**
   * The signature callback, once its request is answered: the same decisions
   * as the certificate callback over `data.signature`, including the
   * rejections for a network error, a body that is not JSON and a `null` body.
   */
  function SignatureSettlement(fetched: Fetched): (r: Settlement)
    ensures r.Resolved? ==> OkObject(fetched) && Truthy(Field(fetched, "success"))
                            && Truthy(Field(fetched, "signature")) && Some(r.value) == Field(fetched, "signature")
    ensures OkObject(fetched) && Truthy(Field(fetched, "success")) && Truthy(Field(fetched, "signature")) ==> r.Resolved?
    ensures fetched.Received? && !Ok(fetched.status) ==>
      r == Rejected(JStr("HTTP error! Status: " + NumberText(fetched.status)))
    ensures OkObject(fetched) && !(Truthy(Field(fetched, "success")) && Truthy(Field(fetched, "signature"))) ==>
      r == Rejected(Or(Field(fetched, "message"), JStr("Failed to sign data")))
    ensures fetched.NetworkError? ==> r == Rejected(JStr(fetched.message))
    ensures fetched.Received? && Ok(fetched.status) && fetched.body.Unparsable? ==>
      r == Rejected(JStr(fetched.body.error))
    ensures fetched.Received? && Ok(fetched.status) && fetched.body == Parsed(JNull) ==>
      r == Rejected(JStr(NullPropertyError("success")))
    ensures fetched.Received? && Ok(fetched.status) && fetched.body.Parsed? &&
            !fetched.body.json.JObject? && !fetched.body.json.JNull? ==>
      r == Rejected(JStr("Failed to sign data"))
  {
    Settle(fetched, "signature", SignatureFallback)
  }

  /** What `qz.printers.find()` gave: a value (`None` for undefined), or an error. */
  datatype FindResult = Found(printers: Option<JsValue>) | FindFailed(error: string)

  /**
   * `getPrinters()`: an array is returned as it is; any other value is
   * wrapped as a one-element list if truthy and dropped if falsy; an error
   * gives the empty list.
   */
  function GetPrinters(found: FindResult): (r: seq<JsValue>)
    ensures found.FindFailed? ==> r == []
    ensures found.Found? && found.printers.Some? && found.printers.value.JArray? ==>
      r == found.printers.value.items
    ensures found.Found? && !(found.printers.Some? && found.printers.value.JArray?) ==>
      |r| <= 1 && (|r| == 1 <==> Truthy(found.printers)) && (|r| == 1 ==> Some(r[0]) == found.printers)
  {
    match found
    case FindFailed(_) => []
    case Found(None) => []
    case Found(Some(JArray(items))) => items
    case Found(Some(v)) => if Truthy(Some(v)) then [v] else []
  }
}
