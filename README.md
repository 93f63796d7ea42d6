# QZ Tray signing oracle — a Dafny model

This project models the server-side signing oracle of a small Laravel backend
and the browser adapter that uses it. A trusted-printing agent (QZ Tray) asks
the browser for a certificate and for signatures over its challenges. The
browser fetches both from the backend, so it never holds the private key.

What is modelled, file by file:

- `qztray_service.dfy` (`app/Services/QzTrayService.php`): the class
  `QzTrayService`. Its constructor reads the two storage paths from the
  configuration. `SignData` is a step-by-step method. It checks that the key
  exists, reads it, parses it, signs with SHA-1, frees the key resource and
  base64-encodes the result. It is proved equal to the specification function
  `SignOutcome`, and the lemmas beside that function state the error exits,
  the call order and the non-disclosure of the key.
  - Storage is a map from path to contents.
  - `openssl_pkey_get_private` and `openssl_sign` are function-valued fields
    of `OpenSsl<K>`. Each may fail with the text `openssl_error_string()`
    would give.
  - The key resource has an abstract type `K`, so no code in the model can
    turn a key into a string.
  - The foreign calls made are returned as a list (`calls`), so "not
    attempted" and "freed after signing" can be stated.
- `base64.dfy`: `base64_encode` as section 4 of RFC 4648, with a strict
  decoder for canonical encodings. Both round trips are proved.
- `qztray_controller.dfy` (`app/Http/Controllers/QzTrayController.php`): each
  action as a function from the service outcome to `{success,
  certificate|signature|message}` and a status.
- `qztray_config.dfy` (`config/qztray.php`): the default paths and the
  `explode`/`array_filter` parse of `QZ_TRAY_ALLOWED_ORIGINS`.
- `cors_config.dfy` (`config/cors.php`): the settings array. The literal
  writes `allowed_origins` twice, and PHP keeps the last value for a repeated
  key. The value `config('qztray.allowed_origins', [])` yields while the file
  runs is a parameter, and Laravel's name-ordered loading of the config
  directory fixes it. `php.dfy` models that rule, along with `explode`, `array_filter`,
  `array_merge`, `trim` and PHP string truthiness.
- `secure_client.dfy` (`src/qz-tray-service-secure.ts`): the certificate and
  signature callbacks as functions from what `fetch` delivered to how the
  promise settles. Also the sign request and the normalisation done by
  `getPrinters`. `js.dfy` holds the JSON values, JavaScript truthiness and
  `${status}` text.
- `end_to_end.dfy`: the certificate and sign round trips, from storage through
  the controller to the callbacks.

The model follows the code in these places:

- A request that fails validation (missing, non-string or blank `data`)
  raises Laravel's validation exception. The controller's generic
  `catch (Exception $e)` catches it, so the answer is 500 "Error signing
  data: …", not 422.
- `if (!$certificate)` uses PHP truthiness, so a certificate file whose whole
  contents are `"0"` is answered 404, like an empty or missing one.
- Failure messages carry the OpenSSL error text and the exception message
  through to the response body unchanged.
- The wildcard `'*'` origin is overridden by the later `allowed_origins`
  key. That key appends `config('qztray.allowed_origins', [])` to the four
  local origins. Laravel loads the config files one at a time in order of
  name, so `qztray.php` has not been loaded yet when `cors.php` runs. The
  call therefore yields its default `[]`, and the allowed origins are the
  four local ones whatever `QZ_TRAY_ALLOWED_ORIGINS` says (see Findings).
- No origin check happens in this code. Only the CORS configuration values
  are modelled.
- For 404 and 500 the browser's `response.ok` is false. The callbacks
  therefore reject with "HTTP error! Status: 404" or "…500", and the
  envelope's `message` is never read.

## Model

| member | source | states |
|---|---|---|
| `QzTrayServices.QzTrayService.constructor` | qz-tray-backend/app/Services/QzTrayService.php:14-18 | The key and certificate paths are the configured values, defaulting to `certs/superfast/key.pem` and `certs/superfast/cert.pem` |
| `QzTrayServices.QzTrayService.SignData` | qz-tray-backend/app/Services/QzTrayService.php:27-65 | The step-by-step sign operation returns exactly the result and the foreign-call sequence of `SignOutcome`; it declares no `modifies`, so storage and the path fields are unchanged |
| `QzTrayServices.SignExits` | qz-tray-backend/app/Services/QzTrayService.php:29-54 | A missing key fails with "Private key not found" exactly when the path is absent, and then makes no OpenSSL call. A parse failure gives "Unable to load private key: "+error after the parse call only. A sign failure gives "Failed to create signature: "+error, and only then. The three messages are distinguishable and reach the caller unchanged |
| `QzTrayServices.FreedAfterSign` | qz-tray-backend/app/Services/QzTrayService.php:40-54 | The key resource is freed right after the sign call on both outcomes and at no other time. Signing always uses `OPENSSL_ALGO_SHA1`. The key contents appear only as the argument of the first (parse) call |
| `QzTrayServices.SignatureDecodes` | qz-tray-backend/app/Services/QzTrayService.php:47-57 | On success, the key parsed, OpenSSL signed, and decoding the returned text gives exactly OpenSSL's signature bytes |
| `QzTrayServices.KeyReachesOnlyTheParser` | qz-tray-backend/app/Services/QzTrayService.php:31-57 | Non-interference: the result depends on the private-key contents only through the parse outcome, so the key contents are never returned |
| `QzTrayServices.QzTrayService.GetCertificate` | qz-tray-backend/app/Services/QzTrayService.php:72-79 | Returns the stored contents exactly when the certificate path exists, and null otherwise |
| `Base64.Encode` | qz-tray-backend/app/Services/QzTrayService.php:57 | `base64_encode` output is a whole number of 4-character quanta, and it is empty exactly when the input is empty |
| `Base64.EncodedLength` | qz-tray-backend/app/Services/QzTrayService.php:57 | The encoding of n bytes has exactly 4·⌈n/3⌉ characters |
| `Base64.DecodeEncode` | qz-tray-backend/app/Services/QzTrayService.php:57 | Decoding the RFC 4648 encoding of any byte string gives back exactly that byte string |
| `Base64.EncodeDecode` | qz-tray-backend/app/Services/QzTrayService.php:57 | Every string the decoder accepts is the encoding of what it decodes to, so the encoding is canonical and injective |
| `QzTrayController.CertificateResponse` | qz-tray-backend/app/Http/Controllers/QzTrayController.php:24-46 | Null, "" or "0" gives 404 "Certificate not found". Other text gives 200 with the text unchanged. A thrown exception gives 500 "Error retrieving certificate: "+message. `success` holds exactly when the status is 200 |
| `QzTrayController.ValidatedData` | qz-tray-backend/app/Http/Controllers/QzTrayController.php:57-61 | `required\|string` passes exactly for a present string that is not blank after PHP `trim`, and the value passes through unchanged |
| `QzTrayController.SignResponse` | qz-tray-backend/app/Http/Controllers/QzTrayController.php:54-74 | A validation failure gives 500 "Error signing data: "+message. Service success gives 200 with the signature unchanged. Service failure gives 500 "Error signing data: "+message. `success` holds exactly when the status is 200 |
| `QzTrayController.InvalidInputSkipsService` | qz-tray-backend/app/Http/Controllers/QzTrayController.php:57-62 | When validation fails, the response is the same for every service, so `signData` is never consulted |
| `QzTrayController.ServiceSeesTheSubmittedData` | qz-tray-backend/app/Http/Controllers/QzTrayController.php:61-62 | A valid request's response depends on the service only through its answer for the submitted string itself |
| `QzTrayController.Json` | qz-tray-backend/app/Http/Controllers/QzTrayController.php:30-44 | Every envelope is a JSON object with exactly two fields: `success` carrying the flag, and `certificate`, `signature` or `message` (by the kind of payload) carrying the payload text unchanged |
| `QzTrayController.JsonDeterminesEnvelope` | qz-tray-backend/app/Http/Controllers/QzTrayController.php:30-44 | Two responses with the same JSON envelope have the same flag and the same payload, so the client can read back everything the controller put in |
| `QzTrayConfig.LoadedPaths` | qz-tray-backend/config/qztray.php:14-17 | Once loaded, the key path is `QZ_TRAY_PRIVATE_KEY` and the certificate path is `QZ_TRAY_CERTIFICATE`, each with its `certs/superfast/…` default |
| `QzTrayConfig.NoOriginsWhenUnset` | qz-tray-backend/config/qztray.php:20 | An unset or empty `QZ_TRAY_ALLOWED_ORIGINS` gives no origins |
| `QzTrayConfig.AllowedOriginsArePieces` | qz-tray-backend/config/qztray.php:20 | The origins are exactly the truthy comma-separated pieces of the variable, untrimmed and in their original order under their original keys. None is empty or "0" or contains a comma, and the pieces join back to the variable |
| `Php.Explode` | qz-tray-backend/config/qztray.php:20 | `explode` yields at least one piece, and no piece contains the separator |
| `Php.ExplodeWithoutSeparator` | qz-tray-backend/config/qztray.php:20 | A string without a comma explodes to itself alone, so a single configured origin is a single piece |
| `Php.ImplodeExplode` | qz-tray-backend/config/qztray.php:20 | Joining the exploded pieces with the separator gives back the original string |
| `Php.ArrayFilter` | qz-tray-backend/config/qztray.php:20 | `array_filter` keeps exactly the truthy entries, preserves their keys and keeps them in order |
| `Php.ArrayMerge` | qz-tray-backend/config/cors.php:26-29 | `array_merge` concatenates the values in order and renumbers the keys from 0 |
| `Php.ArrayLiteralLookup` | qz-tray-backend/config/cors.php:23-29 | In an array literal that repeats a key, the key holds the value written last for it, and each key occurs once |
| `CorsConfig.EffectiveOrigins` | qz-tray-backend/config/cors.php:23-29 | Whatever `config('qztray.allowed_origins', [])` yields while the file runs, the effective `allowed_origins` is the four fixed local origins, in order, followed by those values. It is not `['*']` |
| `CorsConfig.WildcardOnlyIfConfigured` | qz-tray-backend/config/cors.php:26-28 | `'*'` is allowed exactly when it is among the values `config('qztray.allowed_origins', [])` yields |
| `CorsConfig.QzTrayLoadsAfterCors` | qz-tray-backend/config/cors.php:28 | `qztray` sorts after `cors`, so with files loaded in name order the call yields its default `[]` for every config directory and environment |
| `CorsConfig.LoadedOrigins` | qz-tray-backend/config/cors.php:23-29 | As loaded, the allowed origins are exactly the four fixed local origins for every environment, and `'*'` is never among them |
| `CorsConfig.ConfiguredOriginIgnored` | qz-tray-backend/config/cors.php:26-28 | With `QZ_TRAY_ALLOWED_ORIGINS` set to one origin outside the fixed four, `qztray.allowed_origins` holds that origin, but the loaded CORS list does not |
| `CorsConfig.IntendedOrigins` | qz-tray-backend/config/cors.php:26-28 | With the parsed variable read directly, the list is the four fixed origins followed by the configured ones, and `'*'` is allowed exactly when configured |
| `CorsConfig.DefaultOrigins` | qz-tray-backend/config/cors.php:26-28 | With `QZ_TRAY_ALLOWED_ORIGINS` unset, exactly the four fixed origins are allowed, as loaded and as intended alike |
| `CorsConfig.OtherSettings` | qz-tray-backend/config/cors.php:18-39 | `supports_credentials` is false, so credentials never meet a wildcard. Origin patterns are empty. The paths are `api/*` and `sanctum/csrf-cookie`. All methods and headers are allowed, nothing is exposed, and `max_age` is 0 |
| `Js.DecimalValueOfNumberText` | src/qz-tray-service-secure.ts:15 | The status text in "HTTP error! Status: N" is N's decimal digits: reading them back gives N |
| `Js.NumberTextInjective` | src/qz-tray-service-secure.ts:15 | Distinct statuses give distinct rejection texts |
| `SecureClient.CertificateRequest` | src/qz-tray-service-secure.ts:4-12 | The certificate is fetched with a bodiless GET from the base URL followed by `/certificate` |
| `SecureClient.CertificateSettlement` | src/qz-tray-service-secure.ts:13-29 | Resolves with `data.certificate`, and only when the response is OK, `success` is truthy and the certificate is non-empty. A non-OK status rejects with "HTTP error! Status: <status>". An OK object body otherwise rejects with `data.message`, or "Failed to get certificate" when there is none. A network error or a body that is not JSON rejects with that error's message. A `null` body rejects with the TypeError from reading `success`, and any other non-object body with "Failed to get certificate" |
| `SecureClient.SignRequest` | src/qz-tray-service-secure.ts:36-42 | The sign request is a JSON POST to the base URL followed by `/sign`, with body exactly `{data: toSign}` |
| `SecureClient.SignatureSettlement` | src/qz-tray-service-secure.ts:43-59 | Resolves with `data.signature`, and only when the response is OK, `success` is truthy and the signature is non-empty. A non-OK status rejects with the status text. An OK object body otherwise rejects with `data.message` or "Failed to sign data". A network error or a body that is not JSON rejects with that error's message. A `null` body rejects with the TypeError from reading `success`, and any other non-object body with "Failed to sign data" |
| `SecureClient.GetPrinters` | src/qz-tray-service-secure.ts:85-93 | An array comes back unchanged. A single truthy value becomes a one-element list and a falsy one the empty list. An error gives the empty list |
| `EndToEnd.CertificateRoundTrip` | src/qz-tray-service-secure.ts:19-21 | A 200 certificate envelope with non-empty text makes the callback resolve with that same text |
| `EndToEnd.SignatureRoundTrip` | src/qz-tray-service-secure.ts:49-54 | A 200 signature envelope makes the callback resolve with the signature when it is non-empty, and reject with "Failed to sign data" when it is empty |
| `EndToEnd.ErrorStatusHidesMessage` | src/qz-tray-service-secure.ts:14-16 | For the controller's 404 and 500 answers, both callbacks reject with the status text, never with the envelope's message |
| `EndToEnd.CertificateFlow` | qz-tray-backend/app/Http/Controllers/QzTrayController.php:27-39 | End to end, the callback resolves with the stored certificate exactly when its path exists and the contents are PHP-truthy; otherwise it rejects with "HTTP error! Status: 404" |
| `EndToEnd.SignResponseSettles` | qz-tray-backend/app/Http/Controllers/QzTrayController.php:57-73 | For any service, the sign callback resolves exactly when validation passes and the service returns a non-empty signature |
| `EndToEnd.SignFlow` | src/qz-tray-service-secure.ts:36-58 | End to end, the agent's payload reaches the service unchanged. The callback resolves exactly when the payload is not blank and signing succeeds with a non-empty signature, and then with text that decodes to exactly the bytes OpenSSL's sign call returned for that payload and the parsed key. Otherwise it rejects with "Failed to sign data" or "HTTP error! Status: 500" |

## Left out

- RSA signing with SHA-1 (RSASSA-PKCS1-v1_5, section 8.2 of RFC 8017) and PEM key parsing are not modelled. They are foreign calls (`openssl_pkey_get_private`, `openssl_sign`), supplied as the function fields of `OpenSsl<K>`. Their error text stands for `openssl_error_string()`, including its `false` (empty) case.
- `openssl_free_key` has no effect in the model beyond its place in the call list.
- The Laravel `Storage`, `Config` and `logger()` facades and the file system are not modelled. Storage is a map, the configuration is a map of dotted keys, and the log line (QzTrayService.php:60) is dropped.
- `env()` value conversions are not modelled: `"true"`, `"false"`, `"null"`, `"(empty)"` and quoted values are taken as plain strings.
- Laravel validation internals are not modelled: the validation exception's message is a parameter. The global request middleware (input trimming, empty string to null) is not part of this model.
- CorsConfig.OriginsSeenByCors: Laravel's loader is modelled as name order over the base names, compared character by character. That agrees with its natural sort for names without digits. Configuration caching builds the same array in the same order and is not modelled separately. The merge with the framework's own default `cors` settings is not modelled, since the application file's keys override it.
- Routing (`routes/api.php`, including the `/user` route) and the CORS middleware that enforces `config/cors.php` are not modelled. Only the configuration values are stated.
- JSON text is not modelled. `JSON.stringify`, `json_encode` and JSON parsing are represented by the parsed value. JSON numbers are integers. Contents are text, so a `json_encode` failure on bytes that are not valid UTF-8 is not modelled.
- `QzTrayServices.QzTrayService.GetCertificate` never throws in the model (Storage::get is not modelled). The controller's exception branch is still modelled over an arbitrary outcome.
- `fetch`, promises, `console.error` and async ordering are not modelled. Each callback is a function from the delivered response to its settlement, and the property-read error on a `null` body uses V8's message text.
- `initQzTray`, `printTestPage` (the clock-dependent test page), `disconnectQzTray` and the agent's websocket transport are not modelled.
- `src/qz-tray-service.ts` (the superseded variant that fetches the key into the browser and signs there) and `src/main.ts` (DOM wiring and timers) are not part of this model.

## Findings

| source | as written | input that shows it | evidently intended | confidence | as-written member | corrected member |
|---|---|---|---|---|---|---|
| qz-tray-backend/config/cors.php:26-28 | Appends `config('qztray.allowed_origins', [])`, which runs while the config files are still loading in name order, before `qztray.php`; it always yields `[]` | `QZ_TRAY_ALLOWED_ORIGINS=https://shop.example`: only the four local origins are allowed, not the shop | The configured origins follow the four local ones | high, not executed | `CorsConfig.ConfiguredOriginIgnored` | `CorsConfig.IntendedOrigins` |
