/**
  The process environment as the agent script reads it, after the
  `.env.local` and `.env` files have been loaded into it: a map from
  variable names to values. `os.getenv` and Python's `or` on `str | None`
  are spelled out here.
*/
module Environment {

  import opened Optional

  type Env = map<string, string>

  /** `os.getenv(name)`: the value, or `None` when the variable is unset. */
  function GetEnv(env: Env, name: string): (v: Option<string>)
    ensures v.Some? <==> name in env
    ensures v.Some? ==> v.value == env[name]
  {
    if name in env then Some(env[name]) else None
  }

  /** `os.getenv(name, default)`: the default replaces an unset variable only, never an empty one. */
  function GetEnvOr(env: Env, name: string, default: string): (v: string)
    ensures name in env ==> v == env[name]
    ensures name !in env ==> v == default
  {
    match GetEnv(env, name)
    case Some(value) => value
    case None => default
  }

  /** Python truthiness of a `str | None`: `None` and `""` are the only falsy values. */
  predicate Truthy(v: Option<string>)
    ensures Truthy(v) <==> v != None && v != Some("")
  {
    v.Some? && v.value != ""
  }

  /** A variable is set to a non-empty value. */
  predicate IsSetNonEmpty(env: Env, name: string)
  {
    name in env && env[name] != ""
  }

  /** Python's `a or b`: `a` when it is truthy, otherwise `b` (which may be falsy too). */
  function Or(a: Option<string>, b: Option<string>): (v: Option<string>)
    ensures Truthy(v) <==> Truthy(a) || Truthy(b)
    ensures Truthy(a) ==> v == a
    ensures !Truthy(a) ==> v == b
  {
    if Truthy(a) then a else b
  }

  /** Python's `a or default` with a string default: the value of `a` when truthy, else `default`. */
  function OrElse(a: Option<string>, default: string): (v: string)
    ensures Truthy(a) ==> v == a.value
    ensures !Truthy(a) ==> v == default
  {
    if Truthy(a) then a.value else default
  }

  /** `os.getenv(name)` is truthy exactly when the variable is set to a non-empty value. */
  lemma TruthyGetEnv(env: Env, name: string)
    ensures Truthy(GetEnv(env, name)) <==> IsSetNonEmpty(env, name)
    ensures Truthy(GetEnv(env, name)) ==> GetEnv(env, name).value == env[name]
  {
  }

}
