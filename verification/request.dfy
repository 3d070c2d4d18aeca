/** The parts of a gin request the helpers read: the query string, first value per key, and the
    environment, both as plain maps. */
module Request {

  /** Query parameters: a key present with an empty value is still present. */
  type QueryParams = map<string, string>

  /** `c.DefaultQuery(key, def)`: the value when the key is present (even if empty), else `def`. */
  function DefaultQuery(q: QueryParams, key: string, def: string): string
  {
    if key in q then q[key] else def
  }

  /** `c.Query(key)`: the value, or "" when the key is absent. */
  function Query(q: QueryParams, key: string): string
  {
    DefaultQuery(q, key, "")
  }

  /** The process environment: unset variables are absent. */
  type Environment = map<string, string>

  /** `GetENVWithDefault`: the variable's value, unless it is unset or empty, in which case the default. */
  function EnvWithDefault(env: Environment, key: string, def: string): (v: string)
    ensures key in env && env[key] != "" ==> v == env[key]
    ensures key !in env || env[key] == "" ==> v == def
    ensures v == def || (key in env && v == env[key])
    ensures v == "" <==> (key !in env || env[key] == "") && def == ""
  {
    var value := if key in env then env[key] else "";
    if value == "" then def else value
  }

  /** Setting the variable to what the lookup returned does not change the lookup. */
  lemma EnvWithDefaultStable(env: Environment, key: string, def: string)
    ensures EnvWithDefault(env[key := EnvWithDefault(env, key, def)], key, def) == EnvWithDefault(env, key, def)
  {
  }
}
