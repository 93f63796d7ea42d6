/**
 * config/qztray.php: where the key and certificate live in storage, and the
 * deployment's extra allowed origins, all read from the process environment.
 */
module QzTrayConfig {
  import opened Php

  /** The process environment: variable name to value; an unset variable is absent. */
  type Env = map<string, string>

  /** The flat view of the loaded configuration that `Config::get` reads (dotted keys). */
  type Repository = map<string, string>

  const PrivateKeyVariable: string := "QZ_TRAY_PRIVATE_KEY"
  const CertificateVariable: string := "QZ_TRAY_CERTIFICATE"
  const AllowedOriginsVariable: string := "QZ_TRAY_ALLOWED_ORIGINS"

  const DefaultPrivateKeyPath: string := "certs/superfast/key.pem"
  const DefaultCertificatePath: string := "certs/superfast/cert.pem"

  const PrivateKeySetting: string := "qztray.certificates.private_key"
  const CertificateSetting: string := "qztray.certificates.certificate"

  /** `env($name, $default)`. */
  function EnvOr(env: Env, name: string, default: string): string
  {
    if name in env then env[name] else default
  }

  /** `Config::get($key, $default)`. */
  function ConfigGet(config: Repository, key: string, default: string): string
  {
    if key in config then config[key] else default
  }

  /** `certificates.private_key`, relative to the storage root. */
  function PrivateKeyPath(env: Env): string
  {
    EnvOr(env, PrivateKeyVariable, DefaultPrivateKeyPath)
  }

  /** `certificates.certificate`, relative to the storage root. */
  function CertificatePath(env: Env): string
  {
    EnvOr(env, CertificateVariable, DefaultCertificatePath)
  }

  /** The two path settings as `Config::get` sees them once this file is loaded. */
  function Load(env: Env): (config: Repository)
    ensures config.Keys == {PrivateKeySetting, CertificateSetting}
  {
    map[PrivateKeySetting := PrivateKeyPath(env), CertificateSetting := CertificatePath(env)]
  }

  /** `array_filter(explode(',', env('QZ_TRAY_ALLOWED_ORIGINS', '')))`. */
  function AllowedOrigins(env: Env): seq<Entry>
  {
    ArrayFilter(Indexed(Explode(',', EnvOr(env, AllowedOriginsVariable, ""))))
  }

  /**
   * With the configuration loaded, the paths `Config::get` yields are the
   * environment's, or the two defaults when the variables are unset.
   */
  lemma LoadedPaths(env: Env)
    ensures ConfigGet(Load(env), PrivateKeySetting, DefaultPrivateKeyPath)
      == (if PrivateKeyVariable in env then env[PrivateKeyVariable] else "certs/superfast/key.pem")
    ensures ConfigGet(Load(env), CertificateSetting, DefaultCertificatePath)
      == (if CertificateVariable in env then env[CertificateVariable] else "certs/superfast/cert.pem")
  {
  }

  /** An unset or empty variable gives no extra origins. */
  lemma NoOriginsWhenUnset(env: Env)
    requires AllowedOriginsVariable !in env || env[AllowedOriginsVariable] == ""
    ensures AllowedOrigins(env) == []
  {
    var pieces := Explode(',', EnvOr(env, AllowedOriginsVariable, ""));
    assert pieces == [""];
    assert Indexed(pieces) == [Entry(0, "")];
    assert [Entry(0, "")][1..] == [];
  }

  /**
   * The origins are exactly the truthy comma-separated pieces of the
   * variable, untrimmed, each under its piece index, in their original order;
   * none is empty or contains a comma.
   */
  lemma {:induction false} AllowedOriginsArePieces(env: Env)
    ensures var raw := EnvOr(env, AllowedOriginsVariable, "");
      var pieces := Explode(',', raw);
      var origins := AllowedOrigins(env);
      && Implode(',', pieces) == raw
      && IncreasingKeys(origins)
      && (forall e :: e in origins ==>
            e.key < |pieces| && pieces[e.key] == e.value && Truthy(e.value) && ',' !in e.value)
      && (forall i :: 0 <= i < |pieces| && Truthy(pieces[i]) ==> Entry(i, pieces[i]) in origins)
  {
    var raw := EnvOr(env, AllowedOriginsVariable, "");
    var pieces := Explode(',', raw);
    ImplodeExplode(',', raw);
    var arr := Indexed(pieces);
    assert IncreasingKeys(arr);
    forall e | e in AllowedOrigins(env)
      ensures e.key < |pieces| && pieces[e.key] == e.value && ',' !in e.value
    {
      assert e in arr;
      var i :| 0 <= i < |arr| && arr[i] == e;
      assert e == Entry(i, pieces[i]);
      assert forall j :: 0 <= j < |pieces[i]| ==> pieces[i][j] != ',';
    }
    forall i | 0 <= i < |pieces| && Truthy(pieces[i])
      ensures Entry(i, pieces[i]) in AllowedOrigins(env)
    {
      assert arr[i] == Entry(i, pieces[i]);
    }
  }
}
