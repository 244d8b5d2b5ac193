/** Resolution of the alert configuration (`or_env` and the construction of
    `AlertConfig` at the start of `main`). The process environment is an
    explicit map holding the variables whose values are valid Unicode (those
    `std::env::var` returns); the host name is an explicit string. */
module ConfigResolver {

  import opened Wrappers
  import opened Cli

  type Env = map<string, string>

  const EndpointVar := "ALERT_ENDPOINT"
  const ChannelVar := "ALERT_CHANNEL"
  const CategoryVar := "ALERT_CATEGORY"
  const OriginVar := "ALERT_ORIGIN"
  const TokenVar := "ALERT_TOKEN"

  /** Prefix of the program-specific environment variables. */
  const Prefix := "CRONWRAP_"

  const DefaultChannel := "cronwrap"

  datatype AlertConfig = AlertConfig(
    endpoint: string,
    channel: string,
    category: Option<string>,
    origin: Option<string>,
    token: string
  )

  /** Why `main` stops before running anything: one of its two `expect`s. */
  datatype ConfigError = MissingEndpoint | MissingToken

  function Lookup(env: Env, name: string): Option<string>
  {
    if name in env then Some(env[name]) else None
  }

  /** The first present value of a list of tiers, the reference reading of a
      precedence order. */
  function FirstPresent(tiers: seq<Option<string>>): Option<string>
    decreases |tiers|
  {
    if |tiers| == 0 then None
    else if tiers[0].Some? then tiers[0]
    else FirstPresent(tiers[1..])
  }

  /** `or_env`: the command-line value, else `CRONWRAP_<NAME>`, else `<NAME>`. */
  function OrEnv(value: Option<string>, env: Env, name: string): (r: Option<string>)
    ensures value.Some? ==> r == value
    ensures value.None? && Prefix + name in env ==> r == Some(env[Prefix + name])
    ensures value.None? && Prefix + name !in env && name in env ==> r == Some(env[name])
    ensures r.None? <==> value.None? && Prefix + name !in env && name !in env
  {
    value.OrElse(Lookup(env, Prefix + name)).OrElse(Lookup(env, name))
  }

  /** `or_env` follows the three-tier precedence order. */
  lemma OrEnvIsPrecedence(value: Option<string>, env: Env, name: string)
    ensures OrEnv(value, env, name) == FirstPresent([value, Lookup(env, Prefix + name), Lookup(env, name)])
  {
    var tiers := [value, Lookup(env, Prefix + name), Lookup(env, name)];
    assert tiers[1..] == [Lookup(env, Prefix + name), Lookup(env, name)];
    assert tiers[1..][1..] == [Lookup(env, name)];
    assert FirstPresent(tiers[1..][1..]) == Lookup(env, name) by {
      assert [Lookup(env, name)][1..] == [];
    }
  }

  /** The configuration `main` builds, or the `expect` that panics. The
      endpoint is resolved (and checked) before the token, so a run missing
      both reports the endpoint. */
  function Resolve(args: Args, env: Env, hostname: string): (r: Result<AlertConfig, ConfigError>)
    ensures r == Failure(MissingEndpoint) <==> OrEnv(args.alertEndpoint, env, EndpointVar).None?
    ensures r == Failure(MissingToken) <==>
      OrEnv(args.alertEndpoint, env, EndpointVar).Some? && OrEnv(args.alertToken, env, TokenVar).None?
    ensures r.Success? ==>
      && Some(r.value.endpoint) == OrEnv(args.alertEndpoint, env, EndpointVar)
      && Some(r.value.token) == OrEnv(args.alertToken, env, TokenVar)
      && r.value.category == OrEnv(args.alertCategory, env, CategoryVar)
  {
    var maybeHostname := if args.noAlertOrigin then None else Some(hostname);
    var endpoint := OrEnv(args.alertEndpoint, env, EndpointVar);
    if endpoint.None? then Failure(MissingEndpoint)
    else
      var token := OrEnv(args.alertToken, env, TokenVar);
      if token.None? then Failure(MissingToken)
      else
        Success(AlertConfig(
          endpoint.value,
          OrEnv(args.alertChannel, env, ChannelVar).GetOr(DefaultChannel),
          OrEnv(args.alertCategory, env, CategoryVar),
          OrEnv(args.alertOrigin, env, OriginVar).OrElse(maybeHostname),
          token.value))
  }

  /** The channel is the resolved value, or `"cronwrap"` when no tier has one. */
  lemma ChannelRule(args: Args, env: Env, hostname: string)
    requires Resolve(args, env, hostname).Success?
    ensures var ch := OrEnv(args.alertChannel, env, ChannelVar);
      Resolve(args, env, hostname).value.channel == (if ch.Some? then ch.value else DefaultChannel)
  {
  }

  /** The origin: a resolved value wins (even over `--no-alert-origin`);
      otherwise the host name, unless `--no-alert-origin` is given. */
  lemma OriginRule(args: Args, env: Env, hostname: string)
    requires Resolve(args, env, hostname).Success?
    ensures var o := OrEnv(args.alertOrigin, env, OriginVar);
      var origin := Resolve(args, env, hostname).value.origin;
      && (o.Some? ==> origin == o)
      && (o.None? && !args.noAlertOrigin ==> origin == Some(hostname))
      && (origin.None? <==> o.None? && args.noAlertOrigin)
  {
  }

  /** Whether the run can start depends only on the endpoint and token tiers:
      no other field, and not the host name. */
  lemma ResolveFailsOnlyForEndpointOrToken(args: Args, env: Env, h1: string, h2: string)
    ensures Resolve(args, env, h1).Success? <==> Resolve(args, env, h2).Success?
    ensures Resolve(args, env, h1).Success? <==>
      OrEnv(args.alertEndpoint, env, EndpointVar).Some? && OrEnv(args.alertToken, env, TokenVar).Some?
  {
  }
}
