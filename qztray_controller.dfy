/**
 * app/Http/Controllers/QzTrayController.php: each action turns the service's
 * outcome into a JSON envelope `{success, certificate|signature|message}`
 * and an HTTP status.
 */
module QzTrayController {
  import opened Wrappers
  import opened Js
  import Php

  /** The second field of an envelope, besides `success`. */
  datatype Payload = Certificate(certificate: string) | Signature(signature: string) | Message(message: string)

  /** A JSON response: status, the `success` flag and the payload field. */
  datatype Response = Response(status: nat, success: bool, payload: Payload)

  const CertificateNotFound: string := "Certificate not found"
  const CertificateErrorPrefix: string := "Error retrieving certificate: "
  const SignErrorPrefix: string := "Error signing data: "

  /**
   * `getCertificate()`. The service returned a string or null
   * (`Success(Some(text))`, `Success(None)`), or threw (`Failure(message)`).
   * `!$certificate` is PHP falsiness, so "" and "0" count as not found.
   */
  function CertificateResponse(outcome: Result<Option<string>, string>): (r: Response)
    ensures r.success <==> r.status == 200
    ensures r.status == 200 || r.status == 404 || r.status == 500
    ensures r.status == 200 <==> outcome.Success? && outcome.value.Some? && Php.Truthy(outcome.value.value)
    ensures r.status == 200 ==> r.payload == Certificate(outcome.value.value)
    ensures r.status == 404 <==> outcome.Success? && (outcome.value.None? || !Php.Truthy(outcome.value.value))
    ensures r.status == 404 ==> r.payload == Message("Certificate not found")
    ensures r.status == 500 <==> outcome.Failure?
    ensures outcome.Failure? ==> r.payload == Message("Error retrieving certificate: " + outcome.error)
  {
    match outcome
    case Failure(e) => Response(500, false, Message(CertificateErrorPrefix + e))
    case Success(certificate) =>
      if certificate.None? || !Php.Truthy(certificate.value) then Response(404, false, Message(CertificateNotFound))
      else Response(200, true, Certificate(certificate.value))
  }

  /**
   * The rules `data => required|string`: present, not null, a string, and
   * not empty once trimmed. The value passes through unchanged.
   */
  function ValidatedData(input: Option<JsValue>): (d: Option<string>)
    ensures d.Some? <==> input.Some? && input.value.JStr? && !Php.Blank(input.value.s)
    ensures d.Some? ==> input == Some(JStr(d.value))
  {
    match input
    case Some(JStr(s)) => if Php.Trim(s) != "" then Some(s) else None
    case _ => None
  }

  /**
   * `signData($request)`. `input` is the request's `data` field (None when
   * absent), `validationMessage` the message of the validation exception, and
   * `signData` the service call (`Failure(message)` when it throws). The
   * validation exception is caught by the same generic handler, so invalid
   * input is answered with 500 and not with a 4xx.
   */
  function SignResponse(input: Option<JsValue>, validationMessage: string,
                        signData: string -> Result<string, string>): (r: Response)
    ensures r.success <==> r.status == 200
    ensures r.status == 200 || r.status == 500
    ensures ValidatedData(input).None? ==>
      r == Response(500, false, Message("Error signing data: " + validationMessage))
    ensures ValidatedData(input).Some? ==>
      var outcome := signData(ValidatedData(input).value);
      && (r.status == 200 <==> outcome.Success?)
      && (outcome.Success? ==> r.payload == Signature(outcome.value))
      && (outcome.Failure? ==> r.payload == Message("Error signing data: " + outcome.error))
  {
    match ValidatedData(input)
    case None => Response(500, false, Message(SignErrorPrefix + validationMessage))
    case Some(data) =>
      match signData(data)
      case Success(signature) => Response(200, true, Signature(signature))
      case Failure(e) => Response(500, false, Message(SignErrorPrefix + e))
  }

  /** `response()->json([...])`: the envelope as the JSON object the client parses. */
  function Json(r: Response): (v: JsValue)
    ensures v.JObject? && "success" in v.fields && v.fields["success"] == JBool(r.success)
    ensures |v.fields| == 2
    ensures r.payload.Certificate? ==>
      v == JObject(map["success" := JBool(r.success), "certificate" := JStr(r.payload.certificate)])
    ensures r.payload.Signature? ==>
      v == JObject(map["success" := JBool(r.success), "signature" := JStr(r.payload.signature)])
    ensures r.payload.Message? ==>
      v == JObject(map["success" := JBool(r.success), "message" := JStr(r.payload.message)])
  {
    var field := match r.payload
      case Certificate(c) => ("certificate", c)
      case Signature(s) => ("signature", s)
      case Message(m) => ("message", m);
    JObject(map["success" := JBool(r.success), field.0 := JStr(field.1)])
  }

  /** The envelope loses nothing: the flag, the kind of payload and its text can all be read back. */
  lemma JsonDeterminesEnvelope(r1: Response, r2: Response)
    requires Json(r1) == Json(r2)
    ensures r1.success == r2.success && r1.payload == r2.payload
  {
    var f := Json(r1).fields;
    assert f["success"] == JBool(r1.success) && f["success"] == JBool(r2.success);
    match r1.payload
    case Certificate(c) => assert "certificate" in Json(r2).fields;
    case Signature(sig) => assert "signature" in Json(r2).fields;
    case Message(m) => assert "message" in Json(r2).fields;
  }

  /** A request that fails validation never reaches the service: the response is the same for any service. */
  lemma InvalidInputSkipsService(input: Option<JsValue>, validationMessage: string,
                                 f: string -> Result<string, string>, g: string -> Result<string, string>)
    requires ValidatedData(input).None?
    ensures SignResponse(input, validationMessage, f) == SignResponse(input, validationMessage, g)
  {
  }

  /**
   * A valid request calls the service with the submitted string itself:
   * services that agree on that one string give the same response.
   */
  lemma ServiceSeesTheSubmittedData(s: string, validationMessage: string,
                                    f: string -> Result<string, string>, g: string -> Result<string, string>)
    requires !Php.Blank(s) && f(s) == g(s)
    ensures SignResponse(Some(JStr(s)), validationMessage, f) == SignResponse(Some(JStr(s)), validationMessage, g)
  {
  }
}
