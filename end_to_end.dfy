/**
 * The oracle's two round trips, from storage through the service and the
 * controller to how the browser adapter's callbacks settle. The routes
 * `GET qz-tray/certificate` and `POST qz-tray/sign` connect the two ends.
 */
module EndToEnd {
  import opened Wrappers
  import opened Js
  import Php
  import Base64
  import QzTrayServices
  import QzTrayController
  import SecureClient

  /** A controller response as `fetch` delivers it to the browser. */
  function Deliver(r: QzTrayController.Response): SecureClient.Fetched
  {
    SecureClient.Received(r.status, SecureClient.Parsed(QzTrayController.Json(r)))
  }

  /** `$request->input('data')` for a request with a JSON body. */
  function InputData(req: SecureClient.Request): Option<JsValue>
  {
    match req.body
    case Some(JObject(fields)) => if "data" in fields then Some(fields["data"]) else None
    case _ => None
  }

  /** A 200 certificate envelope with non-empty text makes the callback resolve with that same text. */
  lemma CertificateRoundTrip(text: string)
    requires Php.Truthy(text)
    ensures SecureClient.CertificateSettlement(Deliver(QzTrayController.CertificateResponse(Success(Some(text)))))
      == SecureClient.Resolved(JStr(text))
  {
  }

  /** A 200 signature envelope makes the callback resolve with the signature exactly when it is non-empty. */
  lemma SignatureRoundTrip(signature: string)
    ensures var f := Deliver(QzTrayController.Response(200, true, QzTrayController.Signature(signature)));
      SecureClient.SignatureSettlement(f) ==
        if signature != "" then SecureClient.Resolved(JStr(signature))
        else SecureClient.Rejected(JStr("Failed to sign data"))
  {
  }

  /**
   * The controller's error statuses are not OK for `fetch`, so both callbacks
   * reject with the status text and never with the envelope's message.
   */
  lemma ErrorStatusHidesMessage(r: QzTrayController.Response)
    requires r.status == 404 || r.status == 500
    ensures SecureClient.CertificateSettlement(Deliver(r)) ==
      SecureClient.Rejected(JStr("HTTP error! Status: " + NumberText(r.status)))
    ensures SecureClient.SignatureSettlement(Deliver(r)) ==
      SecureClient.Rejected(JStr("HTTP error! Status: " + NumberText(r.status)))
  {
  }

  /** The rejection texts for the controller's two error statuses. */
  lemma StatusTexts()
    ensures "HTTP error! Status: " + NumberText(404) == "HTTP error! Status: 404"
    ensures "HTTP error! Status: " + NumberText(500) == "HTTP error! Status: 500"
  {
    assert NumberText(4) == "4" && NumberText(40) == "40" && NumberText(404) == "404";
    assert NumberText(5) == "5" && NumberText(50) == "50" && NumberText(500) == "500";
  }

  /**
   * Fetching the certificate end to end: the callback resolves with the
   * stored text exactly when the certificate path exists and its contents
   * are PHP-truthy; otherwise it rejects with the 404 status text.
   */
  lemma CertificateFlow(service: QzTrayServices.QzTrayService, storage: QzTrayServices.Storage)
    ensures var s := SecureClient.CertificateSettlement(
        Deliver(QzTrayController.CertificateResponse(Success(service.GetCertificate(storage)))));
      && (s.Resolved? <==> service.certificatePath in storage && Php.Truthy(storage[service.certificatePath]))
      && (s.Resolved? ==> s.value == JStr(storage[service.certificatePath]))
      && (!s.Resolved? ==> s == SecureClient.Rejected(JStr("HTTP error! Status: 404")))
  {
    var cert := service.GetCertificate(storage);
    var r := QzTrayController.CertificateResponse(Success(cert));
    if r.status == 200 {
      CertificateRoundTrip(cert.value);
    } else {
      assert r.status == 404;
      ErrorStatusHidesMessage(r);
      StatusTexts();
    }
  }

  /**
   * How the signature callback settles on the controller's answer, for any
   * service `signData`: it resolves exactly when the input is valid and the
   * service returns a non-empty signature.
   */
  lemma SignResponseSettles(input: Option<JsValue>, validationMessage: string,
                            signData: string -> Result<string, string>)
    ensures var s := SecureClient.SignatureSettlement(Deliver(QzTrayController.SignResponse(input, validationMessage, signData)));
      var data := QzTrayController.ValidatedData(input);
      && (s.Resolved? <==> data.Some? && signData(data.value).Success? && signData(data.value).value != "")
      && (s.Resolved? ==> s == SecureClient.Resolved(JStr(signData(data.value).value)))
      && (data.Some? && signData(data.value) == Success("") ==>
            s == SecureClient.Rejected(JStr("Failed to sign data")))
      && (data.None? || signData(data.value).Failure? ==>
            s == SecureClient.Rejected(JStr("HTTP error! Status: 500")))
  {
    var r := QzTrayController.SignResponse(input, validationMessage, signData);
    if r.status == 200 {
      SignatureRoundTrip(r.payload.signature);
    } else {
      ErrorStatusHidesMessage(r);
      StatusTexts();
    }
  }

  /**
   * Signing end to end, for the agent's payload `toSign`. The payload reaches
   * the service unchanged. The callback resolves exactly when the payload is
   * not blank, the service signs, and the signature is non-empty; it then
   * resolves with base64 text that decodes to OpenSSL's signature bytes. An
   * empty signature rejects with the fixed text; every other failure,
   * validation included, rejects with the 500 status text.
   */
  lemma SignFlow<K>(keyPath: string, storage: QzTrayServices.Storage, ssl: QzTrayServices.OpenSsl<K>,
                    toSign: string, validationMessage: string)
    ensures InputData(SecureClient.SignRequest(toSign)) == Some(JStr(toSign))
    ensures var outcome := QzTrayServices.SignOutcome(keyPath, storage, ssl, toSign).result;
      var r := QzTrayController.SignResponse(InputData(SecureClient.SignRequest(toSign)), validationMessage,
                                             d => QzTrayServices.SignOutcome(keyPath, storage, ssl, d).result);
      var s := SecureClient.SignatureSettlement(Deliver(r));
      && (s.Resolved? <==> !Php.Blank(toSign) && outcome.Success? && outcome.value != "")
      && (s.Resolved? ==>
            s == SecureClient.Resolved(JStr(outcome.value)) &&
            keyPath in storage && ssl.pkeyGetPrivate(storage[keyPath]).Success? &&
            Base64.Decode(outcome.value) ==
              Some(ssl.sign(toSign, ssl.pkeyGetPrivate(storage[keyPath]).value, QzTrayServices.OpenSslAlgoSha1).value))
      && (!Php.Blank(toSign) && outcome == Success("") ==>
            s == SecureClient.Rejected(JStr("Failed to sign data")))
      && (Php.Blank(toSign) || outcome.Failure? ==>
            s == SecureClient.Rejected(JStr("HTTP error! Status: 500")))
  {
    var req := SecureClient.SignRequest(toSign);
    assert InputData(req) == Some(JStr(toSign));
    var signData := d => QzTrayServices.SignOutcome(keyPath, storage, ssl, d).result;
    var outcome := signData(toSign);
    SignResponseSettles(InputData(req), validationMessage, signData);
    if outcome.Success? {
      QzTrayServices.SignatureDecodes(keyPath, storage, ssl, toSign);
    }
  }
}
