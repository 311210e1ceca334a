/**
 * The credential merge of the configuration loader: each of portal id, user
 * id and password comes from a non-empty environment variable, else from the
 * config file, else is empty; any empty field is an error naming the missing
 * fields; the portal URL is derived from the portal id unless the file gives
 * one.  The environment and the parsed config file are passed in as maps.
 */
module Config {
  import opened Wrappers

  /** Process environment: variable name to value. */
  type Env = map<string, string>

  /** The parsed config file, and the merged configuration: key to string value. */
  type Dict = map<string, string>

  const PortalIdVar := "KLIENTENPORTAL_PORTAL_ID"
  const UserIdVar := "KLIENTENPORTAL_USER_ID"
  const PasswordVar := "KLIENTENPORTAL_PASSWORD"

  const PortalIdKey := "portal_id"
  const UserIdKey := "user_id"
  const PasswordKey := "password"
  const PortalUrlKey := "portal_url"

  /** The portal URL for a portal id when the config file names none. */
  const PortalBase := "https://klientenportal.at/prod/"

  datatype ConfigError = MissingConfig(names: seq<string>)

  /** `os.environ.get(var) or cfg.get(key, "")`. */
  function Pick(env: Env, envVar: string, cfg: Dict, key: string): string {
    if envVar in env && env[envVar] != "" then env[envVar]
    else if key in cfg then cfg[key]
    else ""
  }

  /** A field is supplied when the environment or the file gives it a non-empty value. */
  predicate Supplied(env: Env, envVar: string, cfg: Dict, key: string) {
    (envVar in env && env[envVar] != "") || (key in cfg && cfg[key] != "")
  }

  /** `[name]` unless the field was supplied. */
  function Unless(supplied: bool, name: string): seq<string> {
    if supplied then [] else [name]
  }

  /** The names of the fields whose value is empty, in the order given. */
  function MissingNames(fields: seq<(string, string)>): (names: seq<string>)
    ensures |names| <= |fields|
    ensures forall n :: n in names ==> (n, "") in fields
    ensures forall i :: 0 <= i < |fields| && fields[i].1 == "" ==> fields[i].0 in names
  {
    if fields == [] then []
    else
      var rest := MissingNames(fields[1..]);
      assert forall n :: n in rest ==> (n, "") in fields by {
        forall n | n in rest ensures (n, "") in fields {
          assert (n, "") in fields[1..];
        }
      }
      assert forall i :: 1 <= i < |fields| ==> fields[i] == fields[1..][i - 1];
      if fields[0].1 == "" then [fields[0].0] + rest else rest
  }

  /** For the three credential fields, the missing ones are listed in field order. */
  lemma MissingInFieldOrder(portalId: string, userId: string, password: string)
    ensures MissingNames([(PortalIdKey, portalId), (UserIdKey, userId), (PasswordKey, password)])
      == Unless(portalId != "", PortalIdKey) + Unless(userId != "", UserIdKey) + Unless(password != "", PasswordKey)
  {
    var fields := [(PortalIdKey, portalId), (UserIdKey, userId), (PasswordKey, password)];
    assert fields[1..][1..][1..] == [];
    assert MissingNames(fields[1..][1..]) == Unless(password != "", PasswordKey);
    assert MissingNames(fields[1..]) == Unless(userId != "", UserIdKey) + MissingNames(fields[1..][1..]);
  }

  /** The merged configuration, or the error listing the missing fields. */
  function LoadConfig(env: Env, cfg: Dict): (r: Result<Dict, ConfigError>)
    ensures r.Success? <==>
      Supplied(env, PortalIdVar, cfg, PortalIdKey)
      && Supplied(env, UserIdVar, cfg, UserIdKey)
      && Supplied(env, PasswordVar, cfg, PasswordKey)
    ensures r.Failure? ==>
              r.error.names == Unless(Supplied(env, PortalIdVar, cfg, PortalIdKey), PortalIdKey)
                               + Unless(Supplied(env, UserIdVar, cfg, UserIdKey), UserIdKey)
                               + Unless(Supplied(env, PasswordVar, cfg, PasswordKey), PasswordKey)
    ensures r.Success? ==>
      && r.value.Keys == cfg.Keys + {PortalIdKey, PortalUrlKey, UserIdKey, PasswordKey}
      && (forall k :: k in cfg && k !in {PortalIdKey, PortalUrlKey, UserIdKey, PasswordKey} ==> r.value[k] == cfg[k])
      && r.value[PortalIdKey] == (if PortalIdVar in env && env[PortalIdVar] != "" then env[PortalIdVar] else cfg[PortalIdKey])
      && r.value[UserIdKey] == (if UserIdVar in env && env[UserIdVar] != "" then env[UserIdVar] else cfg[UserIdKey])
      && r.value[PasswordKey] == (if PasswordVar in env && env[PasswordVar] != "" then env[PasswordVar] else cfg[PasswordKey])
      && r.value[PortalUrlKey] ==
        (if PortalUrlKey in cfg && cfg[PortalUrlKey] != "" then cfg[PortalUrlKey] else PortalBase + r.value[PortalIdKey])
    ensures r.Success? ==> r.value[PortalIdKey] != "" && r.value[UserIdKey] != "" && r.value[PasswordKey] != ""
  {
    var portalId := Pick(env, PortalIdVar, cfg, PortalIdKey);
    var userId := Pick(env, UserIdVar, cfg, UserIdKey);
    var password := Pick(env, PasswordVar, cfg, PasswordKey);
    if portalId == "" || userId == "" || password == "" then
      MissingInFieldOrder(portalId, userId, password);
      Failure(MissingConfig(MissingNames([(PortalIdKey, portalId), (UserIdKey, userId), (PasswordKey, password)])))
    else
      var url := if PortalUrlKey in cfg && cfg[PortalUrlKey] != "" then cfg[PortalUrlKey] else PortalBase + portalId;
      Success(cfg[PortalIdKey := portalId][PortalUrlKey := url][UserIdKey := userId][PasswordKey := password])
  }

  /**
   * The merge is stable: loading the merged configuration again, with no
   * environment overrides, gives it back unchanged.
   */
  lemma LoadConfigStable(env: Env, cfg: Dict)
    requires LoadConfig(env, cfg).Success?
    ensures LoadConfig(map[], LoadConfig(env, cfg).value) == LoadConfig(env, cfg)
  {
    var m := LoadConfig(env, cfg).value;
    var m' := LoadConfig(map[], m).value;
    assert m'.Keys == m.Keys;
    assert m' == m;
  }

  /**
   * A non-empty environment value beats whatever the config file says, for
   * each of the three credentials: two config files that both load give the
   * same value for a credential whose variable is set.
   */
  lemma EnvOverridesFile(env: Env, cfg: Dict, cfg': Dict)
    requires LoadConfig(env, cfg).Success? && LoadConfig(env, cfg').Success?
    ensures PortalIdVar in env && env[PortalIdVar] != "" ==>
              LoadConfig(env, cfg).value[PortalIdKey] == LoadConfig(env, cfg').value[PortalIdKey] == env[PortalIdVar]
    ensures UserIdVar in env && env[UserIdVar] != "" ==>
              LoadConfig(env, cfg).value[UserIdKey] == LoadConfig(env, cfg').value[UserIdKey] == env[UserIdVar]
    ensures PasswordVar in env && env[PasswordVar] != "" ==>
              LoadConfig(env, cfg).value[PasswordKey] == LoadConfig(env, cfg').value[PasswordKey] == env[PasswordVar]
  {
  }
}
