/**
 * app/Services/QzTrayService.php: the key store and the signing oracle's one
 * operation. Storage is a map from path to file contents; the two OpenSSL
 * calls are supplied as functions that may fail, over a key-resource type `K`
 * the service cannot look inside.
 */
module QzTrayServices {
  import opened Wrappers
  import Base64
  import QzTrayConfig

  /** The storage disk: relative path to file contents. A missing path does not exist. */
  type Storage = map<string, string>

  /** PHP's `OPENSSL_ALGO_SHA1`, the digest the signing call is always given. */
  const OpenSslAlgoSha1: int := 1

  /**
   * The OpenSSL functions the service calls. A failure carries the text
   * `openssl_error_string()` returns after it.
   */
  datatype OpenSsl<!K> = OpenSsl(
    /** `openssl_pkey_get_private($pem)`: a key resource, or failure for contents it cannot parse. */
    pkeyGetPrivate: string -> Result<K, string>,
    /** `openssl_sign($data, $signature, $key, $algorithm)`: the raw signature bytes. */
    sign: (string, K, int) -> Result<seq<Base64.byte>, string>)

  /** One foreign call made while signing, in the order made. */
  datatype Call = PkeyGetPrivate(pem: string) | Sign(data: string, algorithm: int) | FreeKey

  const KeyNotFound: string := "Private key not found"
  const LoadKeyPrefix: string := "Unable to load private key: "
  const SignFailedPrefix: string := "Failed to create signature: "

  /** What one `signData` call returns (or throws: `Failure(message)`) and which calls it makes. */
  datatype SignRun = SignRun(result: Result<string, string>, calls: seq<Call>)

  /** The meaning of `signData($data)` with the private key at `keyPath`. */
  function SignOutcome<K>(keyPath: string, storage: Storage, ssl: OpenSsl<K>, data: string): SignRun
  {
    if keyPath !in storage then SignRun(Failure(KeyNotFound), [])
    else
      var pem := storage[keyPath];
      match ssl.pkeyGetPrivate(pem)
      case Failure(e) => SignRun(Failure(LoadKeyPrefix + e), [PkeyGetPrivate(pem)])
      case Success(key) =>
        var calls := [PkeyGetPrivate(pem), Sign(data, OpenSslAlgoSha1), FreeKey];
        match ssl.sign(data, key, OpenSslAlgoSha1)
        case Failure(e) => SignRun(Failure(SignFailedPrefix + e), calls)
        case Success(signature) => SignRun(Success(Base64.Encode(signature)), calls)
  }

  class QzTrayService {
    var privateKeyPath: string
    var certificatePath: string

    /** Reads both paths from the configuration, with the built-in defaults. */
    constructor (config: QzTrayConfig.Repository)
      ensures privateKeyPath ==
        QzTrayConfig.ConfigGet(config, QzTrayConfig.PrivateKeySetting, "certs/superfast/key.pem")
      ensures certificatePath ==
        QzTrayConfig.ConfigGet(config, QzTrayConfig.CertificateSetting, "certs/superfast/cert.pem")
    {
      privateKeyPath := QzTrayConfig.ConfigGet(config, QzTrayConfig.PrivateKeySetting, QzTrayConfig.DefaultPrivateKeyPath);
      certificatePath := QzTrayConfig.ConfigGet(config, QzTrayConfig.CertificateSetting, QzTrayConfig.DefaultCertificatePath);
    }

    /**
     * Signs `data` with the stored private key: check the key exists, read
     * it, parse it, sign with SHA-1, free the key resource, base64-encode.
     * Every failure is returned as `Failure(message)` with the message it was
     * raised with. Neither storage nor the path fields change.
     */
    method SignData<K>(storage: Storage, ssl: OpenSsl<K>, data: string)
      returns (r: Result<string, string>, calls: seq<Call>)
      ensures SignRun(r, calls) == SignOutcome(privateKeyPath, storage, ssl, data)
    {
      calls := [];
      if privateKeyPath !in storage {
        r := Failure(KeyNotFound);
        return;
      }
      var privateKey := storage[privateKeyPath];
      calls := calls + [PkeyGetPrivate(privateKey)];
      var privateKeyResource := ssl.pkeyGetPrivate(privateKey);
      if privateKeyResource.Failure? {
        r := Failure(LoadKeyPrefix + privateKeyResource.error);
        return;
      }
      calls := calls + [Sign(data, OpenSslAlgoSha1)];
      var signSuccess := ssl.sign(data, privateKeyResource.value, OpenSslAlgoSha1);
      calls := calls + [FreeKey];
      if signSuccess.Failure? {
        r := Failure(SignFailedPrefix + signSuccess.error);
        return;
      }
      r := Success(Base64.Encode(signSuccess.value));
    }

    /** The certificate text when the certificate path exists, otherwise null. */
    function GetCertificate(storage: Storage): (r: Option<string>)
      reads this
      ensures r.Some? <==> certificatePath in storage
      ensures r.Some? ==> r.value == storage[certificatePath]
    {
      if certificatePath in storage then Some(storage[certificatePath]) else None
    }
  }

  /**
   * The distinct error exits of `signData`: a missing key fails before any
   * OpenSSL call; a key that does not parse fails after the parse call only;
   * a failed signature fails after parse, sign and free. The three messages
   * can be told apart.
   */
  lemma SignExits<K>(keyPath: string, storage: Storage, ssl: OpenSsl<K>, data: string)
    ensures var run := SignOutcome(keyPath, storage, ssl, data);
      && (keyPath !in storage <==> run.result == Failure(KeyNotFound))
      && (keyPath !in storage <==> run.calls == [])
      && (keyPath in storage ==> run.calls[0] == PkeyGetPrivate(storage[keyPath]))
      && (keyPath in storage && ssl.pkeyGetPrivate(storage[keyPath]).Failure? <==>
            run.result.Failure? && LoadKeyPrefix <= run.result.error)
      && (keyPath in storage && ssl.pkeyGetPrivate(storage[keyPath]).Failure? ==>
            run.result == Failure(LoadKeyPrefix + ssl.pkeyGetPrivate(storage[keyPath]).error)
            && |run.calls| == 1)
      && (keyPath in storage && ssl.pkeyGetPrivate(storage[keyPath]).Success? &&
          ssl.sign(data, ssl.pkeyGetPrivate(storage[keyPath]).value, OpenSslAlgoSha1).Failure? ==>
            run.result == Failure(SignFailedPrefix +
                                  ssl.sign(data, ssl.pkeyGetPrivate(storage[keyPath]).value, OpenSslAlgoSha1).error)
            && |run.calls| == 3)
      && (run.result.Failure? && SignFailedPrefix <= run.result.error <==>
            keyPath in storage && ssl.pkeyGetPrivate(storage[keyPath]).Success? &&
            ssl.sign(data, ssl.pkeyGetPrivate(storage[keyPath]).value, OpenSslAlgoSha1).Failure?)
  {
    var run := SignOutcome(keyPath, storage, ssl, data);
    assert KeyNotFound[0] == 'P' && LoadKeyPrefix[0] == 'U' && SignFailedPrefix[0] == 'F';
    if keyPath in storage && ssl.pkeyGetPrivate(storage[keyPath]).Failure? {
      assert !(SignFailedPrefix <= run.result.error) by {
        assert run.result.error[0] == 'U';
      }
    }
    if keyPath !in storage {
      assert !(LoadKeyPrefix <= run.result.error) && !(SignFailedPrefix <= run.result.error);
    }
    if run.result.Failure? && keyPath in storage && ssl.pkeyGetPrivate(storage[keyPath]).Success? {
      assert run.result.error[0] == 'F';
    }
  }

  /**
   * The key resource is freed right after the signing call, whether it
   * succeeded or not, and only then; signing always uses SHA-1; the key
   * contents appear only as the argument of the first call.
   */
  lemma FreedAfterSign<K>(keyPath: string, storage: Storage, ssl: OpenSsl<K>, data: string)
    ensures var calls := SignOutcome(keyPath, storage, ssl, data).calls;
      && (forall i :: 0 <= i < |calls| && calls[i].Sign? ==> i + 1 < |calls| && calls[i + 1] == FreeKey)
      && (forall i :: 0 <= i < |calls| && calls[i] == FreeKey ==> 0 < i && calls[i - 1].Sign?)
      && (forall i :: 0 <= i < |calls| && calls[i].Sign? ==> calls[i] == Sign(data, OpenSslAlgoSha1))
      && (forall i :: 0 <= i < |calls| && calls[i].PkeyGetPrivate? ==> i == 0)
  {
  }

  /**
   * On success the result is the base64 text of exactly the bytes OpenSSL
   * produced: decoding it gives them back.
   */
  lemma SignatureDecodes<K>(keyPath: string, storage: Storage, ssl: OpenSsl<K>, data: string)
    requires SignOutcome(keyPath, storage, ssl, data).result.Success?
    ensures keyPath in storage && ssl.pkeyGetPrivate(storage[keyPath]).Success?
    ensures var signed := ssl.sign(data, ssl.pkeyGetPrivate(storage[keyPath]).value, OpenSslAlgoSha1);
      && signed.Success?
      && Base64.Decode(SignOutcome(keyPath, storage, ssl, data).result.value) == Some(signed.value)
  {
    var signed := ssl.sign(data, ssl.pkeyGetPrivate(storage[keyPath]).value, OpenSslAlgoSha1);
    Base64.DecodeEncode(signed.value);
  }

  /**
   * The private-key contents never reach the result: two stores in which
   * the key exists alike and whose contents parse to the same outcome give
   * the same result, whatever else they hold, and the same calls apart from
   * the parse call's argument.
   */
  lemma KeyReachesOnlyTheParser<K>(keyPath: string, s1: Storage, s2: Storage, ssl: OpenSsl<K>, data: string)
    requires keyPath in s1 <==> keyPath in s2
    requires keyPath in s1 ==> ssl.pkeyGetPrivate(s1[keyPath]) == ssl.pkeyGetPrivate(s2[keyPath])
    ensures SignOutcome(keyPath, s1, ssl, data).result == SignOutcome(keyPath, s2, ssl, data).result
    ensures var c1, c2 := SignOutcome(keyPath, s1, ssl, data).calls, SignOutcome(keyPath, s2, ssl, data).calls;
      |c1| == |c2| && forall i :: 0 < i < |c1| ==> c1[i] == c2[i]
  {
  }
}
