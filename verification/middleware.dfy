/**
 * The request gate (`middleware`): public path prefixes pass; any request
 * carrying a `token` query parameter passes without a session check (the
 * token value itself is not looked at here); a development switch can skip
 * authentication; everything else asks the session endpoint and is
 * redirected to login unless it answers ok. The session check is an abstract
 * input: its answer is only consulted when the gate reaches that step.
 */
module Middleware {
  import opened Wrappers
  import SearchParams

  /** Paths that never require a session; matched as prefixes. */
  const PublicPaths: seq<string> := [
    "/api/auth/login",
    "/api/auth/callback",
    "/api/auth/logout",
    "/api/auth/me",
    "/api/galleries/share",
    "/api/galleries/validate-token"
  ]

  /** `NODE_ENV` and `AUTH0_DISABLE_AUTH`; None when unset. */
  datatype Config = Config(nodeEnv: Option<string>, disableAuth: Option<string>)

  /** What the fetch of `/api/auth/me` does: answers ok, answers not ok, or throws. */
  datatype SessionResult = SessionOk | SessionNotOk | SessionThrows

  /** `NextResponse.next()`, optionally with `Cache-Control: no-store, must-revalidate`, or a login redirect. */
  datatype Action = Next(noStore: bool) | RedirectToLogin

  /** The gate's action and whether it called the session endpoint. */
  datatype GateResult = GateResult(action: Action, sessionChecked: bool)

  predicate IsDevelopment(config: Config) {
    config.nodeEnv == Some("development")
  }

  predicate AuthDisabled(config: Config) {
    IsDevelopment(config) && config.disableAuth == Some("true")
  }

  /** `publicPaths.some(path => pathname.startsWith(path))`. */
  predicate IsPublic(pathname: string) {
    exists k :: 0 <= k < |PublicPaths| && PublicPaths[k] <= pathname
  }

  /** The outcome of the session-check step. */
  function SessionStep(config: Config, session: SessionResult): (a: Action)
    ensures a.Next? ==> !a.noStore
    ensures a.Next? <==> session == SessionOk || (session == SessionThrows && IsDevelopment(config))
  {
    match session
    case SessionOk => Next(false)
    case SessionNotOk => RedirectToLogin
    case SessionThrows => if IsDevelopment(config) then Next(false) else RedirectToLogin
  }

  /** `middleware(req)` for a request with path `pathname` and query `query`. */
  function Gate(pathname: string, query: SearchParams.Query, config: Config, session: SessionResult)
    : (g: GateResult)
    // public paths pass first, untouched
    ensures IsPublic(pathname) ==> g == GateResult(Next(false), false)
    // a token parameter, with any value, passes without a session check and disables caching
    ensures !IsPublic(pathname) && SearchParams.Has(query, "token") ==> g == GateResult(Next(true), false)
    // only token requests get the no-store header
    ensures g.action.Next? && g.action.noStore <==> !IsPublic(pathname) && SearchParams.Has(query, "token")
    // the session endpoint is asked exactly when no earlier rule decided
    ensures g.sessionChecked <==> !IsPublic(pathname) && !SearchParams.Has(query, "token") && !AuthDisabled(config)
    ensures !IsPublic(pathname) && !SearchParams.Has(query, "token") && AuthDisabled(config) ==>
              g == GateResult(Next(false), false)
    ensures g.sessionChecked ==> g.action == SessionStep(config, session)
    // outside development a request passes only if public, carrying a token, or with a session
    ensures !IsDevelopment(config) ==>
              (g.action.Next? <==> IsPublic(pathname) || SearchParams.Has(query, "token") || session == SessionOk)
  {
    if IsPublic(pathname) then GateResult(Next(false), false)
    else if SearchParams.Has(query, "token") then GateResult(Next(true), false)
    else if AuthDisabled(config) then GateResult(Next(false), false)
    else GateResult(SessionStep(config, session), true)
  }

  /** When the gate does not call the session endpoint, its answer cannot matter. */
  lemma UncheckedSessionIrrelevant(pathname: string, query: SearchParams.Query, config: Config,
                                   s1: SessionResult, s2: SessionResult)
    requires !Gate(pathname, query, config, s1).sessionChecked
    ensures Gate(pathname, query, config, s1) == Gate(pathname, query, config, s2)
  {
  }

  /** Public paths are matched by prefix: anything below a listed path is public too. */
  lemma PublicIsPrefixMatch(suffix: string)
    ensures IsPublic("/api/auth/login" + suffix)
    ensures IsPublic("/api/galleries/validate-token" + suffix)
  {
    assert PublicPaths[0] <= "/api/auth/login" + suffix;
    assert PublicPaths[5] <= "/api/galleries/validate-token" + suffix;
  }

  /** A gallery page is not public, so without token or session it is redirected in production. */
  lemma GalleryPageNeedsSession(slug: string, config: Config)
    requires !IsDevelopment(config)
    ensures Gate("/galleries/" + slug, [], config, SessionNotOk).action == RedirectToLogin
    ensures Gate("/galleries/" + slug, [], config, SessionThrows).action == RedirectToLogin
  {
    var p := "/galleries/" + slug;
    forall k | 0 <= k < |PublicPaths|
      ensures !(PublicPaths[k] <= p)
    {
      assert PublicPaths[k][1] != p[1];
    }
  }
}
