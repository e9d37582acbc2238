/** The dashboard's Basic-auth gate (middleware.ts): requests under
    `/dashboard` need an `Authorization` header whose second word decodes
    to the expected `user:password`; every other request passes.

    `Buffer.from(token, 'base64').toString('utf-8')` is the parameter
    `decode`, `None` standing for a thrown error; the two environment
    variables are the input `Env`, `None` where unset. */
module Middleware {
  import opened Base
  import Strings

  datatype Env = Env(dashboardUsername: Option<string>, dashboardPassword: Option<string>)

  datatype Outcome = Next | Unauthorized(body: string, wwwAuthenticate: string)

  const DashboardPrefix: string := "/dashboard"
  const AuthRequired: string := "Authentication required"
  const Challenge: string := "Basic realm=\"Dashboard\", charset=\"UTF-8\""
  const DefaultCredential: string := "admin"

  /** A JavaScript-truthy string: present and non-empty. */
  predicate Given(s: Option<string>) {
    s.Some? && s.value != ""
  }

  /** `process.env.X || 'admin'` */
  function OrAdmin(s: Option<string>): string {
    if Given(s) then s.value else DefaultCredential
  }

  /** `authHeader.split(' ')[1]`, `None` where there is no second piece. */
  function Token(authHeader: string): Option<string> {
    var pieces := Strings.Split(authHeader, ' ');
    if |pieces| >= 2 then Some(pieces[1]) else None
  }

  /** `isValidBasicAuth(authHeader)` */
  predicate IsValidBasicAuth(authHeader: string, decode: string -> Option<string>, env: Env) {
    var token := Token(authHeader);
    if !Given(token) then false
    else
      match decode(token.value)
      case None => false
      case Some(credentials) =>
        var parts := Strings.Split(credentials, ':');
        var username := parts[0];
        var password := if |parts| >= 2 then Some(parts[1]) else None;
        username == OrAdmin(env.dashboardUsername) && password == Some(OrAdmin(env.dashboardPassword))
  }

  /** `middleware(request)` for a path and its `Authorization` header. */
  function Gate(pathname: string, authHeader: Option<string>, decode: string -> Option<string>, env: Env): Outcome {
    if Strings.StartsWith(pathname, DashboardPrefix)
       && (!Given(authHeader) || !IsValidBasicAuth(authHeader.value, decode, env))
    then Unauthorized(AuthRequired, Challenge)
    else Next
  }

  /** Only dashboard paths are gated, and a refusal is always the 401 challenge. */
  lemma GateSpec(pathname: string, authHeader: Option<string>, decode: string -> Option<string>, env: Env)
    ensures !Strings.StartsWith(pathname, DashboardPrefix) ==> Gate(pathname, authHeader, decode, env) == Next
    ensures Gate(pathname, authHeader, decode, env).Unauthorized? ==>
      Gate(pathname, authHeader, decode, env) == Unauthorized(AuthRequired, Challenge)
    ensures Strings.StartsWith(pathname, DashboardPrefix) ==>
      (Gate(pathname, authHeader, decode, env) == Next <==> Given(authHeader) && IsValidBasicAuth(authHeader.value, decode, env))
  {
  }

  /** The token is the word after the first space, whatever the scheme word
      before it says. */
  lemma TokenAfterScheme(scheme: string, token: string)
    requires ' ' !in scheme && ' ' !in token
    ensures Token(scheme + " " + token) == Some(token)
  {
    Strings.SplitNoSep(token, ' ');
    Strings.SplitCons(scheme, ' ', token);
  }

  /** A header that is a single word has no token and is refused. */
  lemma SingleWordRefused(authHeader: string, decode: string -> Option<string>, env: Env)
    requires ' ' !in authHeader
    ensures Token(authHeader) == None
    ensures !IsValidBasicAuth(authHeader, decode, env)
  {
    Strings.SplitNoSep(authHeader, ' ');
  }

  /** Credentials `user:password` with no further colon are accepted exactly
      when both halves equal the expected ones, `admin` where unset. */
  lemma PlainCredentials(scheme: string, token: string, decode: string -> Option<string>, env: Env,
                         username: string, password: string)
    requires ' ' !in scheme && ' ' !in token && token != ""
    requires ':' !in username && ':' !in password
    requires decode(token) == Some(username + ":" + password)
    ensures IsValidBasicAuth(scheme + " " + token, decode, env) <==>
      username == OrAdmin(env.dashboardUsername) && password == OrAdmin(env.dashboardPassword)
  {
    TokenAfterScheme(scheme, token);
    Strings.SplitNoSep(password, ':');
    Strings.SplitCons(username, ':', password);
  }

  /** Only the first two colon-separated pieces are compared, so anything
      after a second colon is ignored: with the defaults, `admin:admin:x` gets in. */
  lemma TrailingPieceIgnored(scheme: string, token: string, decode: string -> Option<string>, extra: string)
    requires ' ' !in scheme && ' ' !in token && token != ""
    requires decode(token) == Some("admin:admin:" + extra)
    ensures IsValidBasicAuth(scheme + " " + token, decode, Env(None, None))
  {
    TokenAfterScheme(scheme, token);
    Strings.SplitCons("admin", ':', "admin:" + extra);
    assert "admin:admin:" + extra == "admin" + [':'] + ("admin:" + extra);
    Strings.SplitCons("admin", ':', extra);
    assert "admin:" + extra == "admin" + [':'] + extra;
  }

  /** A configured password containing `:` can never be entered: every
      compared piece is colon-free. Section 2 of RFC 7617 instead takes the
      whole remainder after the first colon as the password. */
  lemma ColonPasswordUnreachable(authHeader: string, decode: string -> Option<string>, env: Env)
    requires Given(env.dashboardPassword) && ':' in env.dashboardPassword.value
    ensures !IsValidBasicAuth(authHeader, decode, env)
  {
  }

  /** A thrown decode, an empty token or a missing password piece is a refusal. */
  lemma FailuresRefused(scheme: string, token: string, decode: string -> Option<string>, env: Env)
    requires ' ' !in scheme && ' ' !in token
    requires token == "" || decode(token).None? || ':' !in decode(token).value
    ensures !IsValidBasicAuth(scheme + " " + token, decode, env)
  {
    TokenAfterScheme(scheme, token);
    if token != "" && decode(token).Some? {
      Strings.SplitNoSep(decode(token).value, ':');
    }
  }
}
