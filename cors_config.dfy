/**
 * config/cors.php: the settings Laravel's CORS handling reads. The literal
 * writes `allowed_origins` twice; PHP keeps the second value.
 */
module CorsConfig {
  import opened Wrappers
  import opened Php
  import QzTrayConfig

  /** The kinds of value the CORS settings hold. */
  datatype Setting = Strings(items: seq<string>) | Number(n: int) | Flag(b: bool)

  const FixedOrigins: seq<string> :=
    ["http://localhost:3000", "http://localhost:8000", "http://127.0.0.1:5173", "http://localhost:5173"]

  /**
   * The array literal as written, in order, including both `allowed_origins`
   * entries. `fromQzTray` is what `config('qztray.allowed_origins', [])`
   * yields at the moment the file is evaluated.
   */
  function Literal(fromQzTray: seq<Entry>): seq<(string, Setting)>
  {
    [ ("paths", Strings(["api/*", "sanctum/csrf-cookie"])),
      ("allowed_methods", Strings(["*"])),
      ("allowed_origins", Strings(["*"])),
      ("allowed_origins", Strings(Values(ArrayMerge(Indexed(FixedOrigins), fromQzTray)))),
      ("allowed_origins_patterns", Strings([])),
      ("allowed_headers", Strings(["*"])),
      ("exposed_headers", Strings([])),
      ("max_age", Number(0)),
      ("supports_credentials", Flag(false)) ]
  }

  /** The CORS configuration array, for a given value of `config('qztray.allowed_origins', [])`. */
  function Cors(fromQzTray: seq<Entry>): seq<(string, Setting)>
  {
    ArrayLiteral(Literal(fromQzTray))
  }

  /** `config('cors.<key>')`. */
  function Get(fromQzTray: seq<Entry>, key: string): Option<Setting>
  {
    Lookup(Cors(fromQzTray), key)
  }

  /** Strict order on configuration file names, compared character by character. */
  predicate NameBefore(a: string, b: string)
    decreases |a|
  {
    if |b| == 0 then false
    else if |a| == 0 then true
    else a[0] < b[0] || (a[0] == b[0] && NameBefore(a[1..], b[1..]))
  }

  /**
   * What `config('qztray.allowed_origins', [])` yields while Laravel
   * evaluates `cors.php`. Laravel sets the repository up empty, then
   * `require`s the files of the config directory (`files`, by base name) one
   * at a time in order of name, storing each under its name. The `qztray` key
   * exists at that moment only if `qztray.php` is present and sorts before
   * `cors.php`; otherwise the call gives its default `[]`.
   */
  function OriginsSeenByCors(files: set<string>, env: QzTrayConfig.Env): seq<Entry>
  {
    if "qztray" in files && NameBefore("qztray", "cors") then QzTrayConfig.AllowedOrigins(env) else []
  }

  /** The CORS configuration as Laravel builds it from the config directory `files`. */
  function AsLoaded(files: set<string>, env: QzTrayConfig.Env): seq<(string, Setting)>
  {
    Cors(OriginsSeenByCors(files, env))
  }

  /**
   * The evidently intended CORS configuration: the file reading the parsed
   * `QZ_TRAY_ALLOWED_ORIGINS` list itself, independently of load order.
   */
  function Intended(env: QzTrayConfig.Env): seq<(string, Setting)>
  {
    Cors(QzTrayConfig.AllowedOrigins(env))
  }

  /** The configured origins: the values of `qztray.allowed_origins`. */
  function Configured(env: QzTrayConfig.Env): seq<string>
  {
    Values(QzTrayConfig.AllowedOrigins(env))
  }

  lemma SettingIs(fromQzTray: seq<Entry>, i: nat)
    requires i < 9 && i != 2
    ensures var pairs := Literal(fromQzTray);
      Get(fromQzTray, pairs[i].0) == Some(pairs[i].1)
  {
    var pairs := Literal(fromQzTray);
    ArrayLiteralLookup(pairs, pairs[i].0);
    LastValueAt(pairs, i);
  }

  /**
   * The second `allowed_origins` wins: the effective list is the four fixed
   * local origins, in order, then whatever `config('qztray.allowed_origins')`
   * yielded; the wildcard entry is gone.
   */
  lemma EffectiveOrigins(fromQzTray: seq<Entry>)
    ensures Get(fromQzTray, "allowed_origins") == Some(Strings(FixedOrigins + Values(fromQzTray)))
    ensures Get(fromQzTray, "allowed_origins") != Some(Strings(["*"]))
  {
    SettingIs(fromQzTray, 3);
    assert Values(Indexed(FixedOrigins)) == FixedOrigins;
  }

  /** `'*'` is allowed exactly when it is among the values `config('qztray.allowed_origins')` yielded. */
  lemma WildcardOnlyIfConfigured(fromQzTray: seq<Entry>)
    ensures Get(fromQzTray, "allowed_origins").Some? && Get(fromQzTray, "allowed_origins").value.Strings?
    ensures "*" in Get(fromQzTray, "allowed_origins").value.items <==> "*" in Values(fromQzTray)
  {
    EffectiveOrigins(fromQzTray);
    assert "*" !in FixedOrigins;
  }

  /** `qztray.php` sorts after `cors.php`, so its settings are not yet loaded when `cors.php` runs. */
  lemma QzTrayLoadsAfterCors(files: set<string>, env: QzTrayConfig.Env)
    ensures !NameBefore("qztray", "cors")
    ensures OriginsSeenByCors(files, env) == []
  {
    assert "qztray"[0] == 'q' && "cors"[0] == 'c';
  }

  /**
   * As the program is loaded, the allowed origins are the four fixed local
   * origins for every environment: `QZ_TRAY_ALLOWED_ORIGINS` never reaches
   * CORS, and `'*'` is never allowed.
   */
  lemma LoadedOrigins(files: set<string>, env: QzTrayConfig.Env)
    ensures Lookup(AsLoaded(files, env), "allowed_origins") == Some(Strings(FixedOrigins))
    ensures "*" !in Lookup(AsLoaded(files, env), "allowed_origins").value.items
  {
    QzTrayLoadsAfterCors(files, env);
    EffectiveOrigins([]);
    assert FixedOrigins + [] == FixedOrigins;
  }

  /**
   * A configured origin is ignored: with `QZ_TRAY_ALLOWED_ORIGINS` set to
   * one origin (say `https://shop.example`), `qztray.allowed_origins` holds
   * it, yet the loaded CORS list does not.
   */
  lemma ConfiguredOriginIgnored(files: set<string>, env: QzTrayConfig.Env, origin: string)
    requires env == map[QzTrayConfig.AllowedOriginsVariable := origin]
    requires ',' !in origin && Truthy(origin) && origin !in FixedOrigins
    ensures Configured(env) == [origin]
    ensures Lookup(AsLoaded(files, env), "allowed_origins").Some?
    ensures Lookup(AsLoaded(files, env), "allowed_origins").value.Strings?
    ensures origin !in Lookup(AsLoaded(files, env), "allowed_origins").value.items
  {
    ExplodeWithoutSeparator(',', origin);
    assert Indexed([origin]) == [Entry(0, origin)];
    assert ArrayFilter([Entry(0, origin)]) == [Entry(0, origin)];
    LoadedOrigins(files, env);
  }

  /**
   * The intended configuration: the four fixed origins followed by the
   * configured ones, and `'*'` only when the deployment configures it.
   */
  lemma IntendedOrigins(env: QzTrayConfig.Env)
    ensures Lookup(Intended(env), "allowed_origins") == Some(Strings(FixedOrigins + Configured(env)))
    ensures "*" in FixedOrigins + Configured(env) <==> "*" in Configured(env)
  {
    EffectiveOrigins(QzTrayConfig.AllowedOrigins(env));
    WildcardOnlyIfConfigured(QzTrayConfig.AllowedOrigins(env));
  }

  /**
   * The remaining settings: credentials are off (so they never meet a
   * wildcard origin), no origin patterns (only exact list entries match),
   * CORS on the `api/` paths and `sanctum/csrf-cookie` only, every method and header
   * allowed, nothing exposed, and no preflight caching.
   */
  lemma OtherSettings(fromQzTray: seq<Entry>)
    ensures Get(fromQzTray, "supports_credentials") == Some(Flag(false))
    ensures Get(fromQzTray, "allowed_origins_patterns") == Some(Strings([]))
    ensures Get(fromQzTray, "paths") == Some(Strings(["api/*", "sanctum/csrf-cookie"]))
    ensures Get(fromQzTray, "allowed_methods") == Some(Strings(["*"]))
    ensures Get(fromQzTray, "allowed_headers") == Some(Strings(["*"]))
    ensures Get(fromQzTray, "exposed_headers") == Some(Strings([]))
    ensures Get(fromQzTray, "max_age") == Some(Number(0))
  {
    SettingIs(fromQzTray, 0);
    SettingIs(fromQzTray, 1);
    SettingIs(fromQzTray, 4);
    SettingIs(fromQzTray, 5);
    SettingIs(fromQzTray, 6);
    SettingIs(fromQzTray, 7);
    SettingIs(fromQzTray, 8);
  }

  /**
   * With no `QZ_TRAY_ALLOWED_ORIGINS`, only the four fixed origins are
   * allowed, as loaded and as intended alike.
   */
  lemma DefaultOrigins(files: set<string>, env: QzTrayConfig.Env)
    requires QzTrayConfig.AllowedOriginsVariable !in env
    ensures Lookup(Intended(env), "allowed_origins") == Some(Strings(FixedOrigins))
    ensures Lookup(AsLoaded(files, env), "allowed_origins") == Lookup(Intended(env), "allowed_origins")
  {
    QzTrayConfig.NoOriginsWhenUnset(env);
    IntendedOrigins(env);
    LoadedOrigins(files, env);
    assert FixedOrigins + [] == FixedOrigins;
  }
}
