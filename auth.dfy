/**
 * `LREAuthenticator`: the `authenticated` and `web_logged_in` flags,
 * flipped by the login and logout calls according to whether the HTTP
 * executor's request succeeds, and the session's cookies cleared on
 * logout.
 */
module Auth {
  import opened Wrappers

  /** The three endpoints the authenticator calls. */
  datatype Endpoint = AuthenticationPoint | WebLogin | LogoutPoint

  datatype Verb = Get | Post

  datatype Request = Request(verb: Verb, endpoint: Endpoint)

  /**
   * The HTTP executor, reduced to the requests it has been asked to make
   * and which of them fail: the request numbered `i` (from 0) raises
   * exactly when `i` is in `failures`.
   */
  class Executor {
    var requests: seq<Request>
    const failures: set<nat>

    constructor (failures: set<nat>)
      ensures requests == [] && this.failures == failures
    {
      requests := [];
      this.failures := failures;
    }

    /** Whether the next request will go through. */
    function NextSucceeds(): bool
      reads this
    {
      |requests| !in failures
    }

    /** `executor.execute(verb, url)`: records the request; `false` when it raises. */
    method Execute(r: Request) returns (ok: bool)
      modifies this
      ensures requests == old(requests) + [r]
      ensures ok == old(NextSucceeds())
    {
      ok := NextSucceeds();
      requests := requests + [r];
    }
  }

  /** The HTTP session; only its cookie jar matters here. */
  class Session {
    var cookies: map<string, string>

    constructor (cookies: map<string, string>)
      ensures this.cookies == cookies
    {
      this.cookies := cookies;
    }

    /** `session.cookies.clear()`. */
    method ClearCookies()
      modifies this
      ensures cookies == map[]
    {
      cookies := map[];
    }
  }

  /**
   * `LREAuthenticationError`, by the message it carries: the credential
   * login failed (with the project-login error when that is what failed),
   * the project login was attempted before authenticating, or the project
   * login request failed.
   */
  datatype AuthError = AuthenticationFailed(cause: Option<AuthError>) | NotAuthenticated | ProjectLoginFailed

  /** The two flags of the authenticator. */
  datatype Flags = Flags(authenticated: bool, webLoggedIn: bool)
  {
    /** Being logged into the project implies being authenticated. */
    predicate Valid() { webLoggedIn ==> authenticated }
  }

  /**
   * `login_to_project` on the flags, given whether its GET would succeed:
   * refused before authentication, nothing when already logged in, and
   * `web_logged_in` set only by a successful request.
   */
  function ProjectLogin(f: Flags, getOk: bool): (r: (Flags, Option<AuthError>))
    ensures f.Valid() ==> r.0.Valid()
    ensures r.0.authenticated == f.authenticated
    ensures !f.authenticated ==> r == (f, Some(NotAuthenticated))
    ensures f.Valid() ==> (r.1.None? <==> r.0.webLoggedIn)
    ensures f.Valid() ==> (r.0.webLoggedIn <==> f.authenticated && (f.webLoggedIn || getOk))
  {
    if !f.authenticated then (f, Some(NotAuthenticated))
    else if f.webLoggedIn then (f, None)
    else if getOk then (Flags(true, true), None)
    else (f, Some(ProjectLoginFailed))
  }

  /**
   * `login_with_client_credentials` on the flags, given whether its POST
   * and the project GET after it would succeed.
   */
  function CredentialLogin(f: Flags, postOk: bool, getOk: bool): (r: (Flags, Option<AuthError>))
    ensures f.Valid() ==> r.0.Valid()
    ensures f.authenticated ==> r == (f, None)
    ensures !f.authenticated ==> (r.0.authenticated <==> postOk)
    ensures f.Valid() && !f.authenticated ==> (r.0.webLoggedIn <==> postOk && getOk) && (r.1.None? <==> r.0.webLoggedIn)
  {
    if f.authenticated then (f, None)
    else if !postOk then (f, Some(AuthenticationFailed(None)))
    else
      var (g, e) := ProjectLogin(Flags(true, f.webLoggedIn), getOk);
      (g, if e.Some? then Some(AuthenticationFailed(e)) else None)
  }

  /** `logout` on the flags: both cleared when authenticated, whether or not the request succeeds. */
  function LogoutFlags(f: Flags): (r: Flags)
    ensures f.Valid() ==> r == Flags(false, false)
  {
    if !f.authenticated then f else Flags(false, false)
  }

  /**
   * Logging in again after a login that reported no error changes nothing
   * and reports no error; when that login did the work, the client is in
   * the project.
   */
  lemma LoginIdempotent(f: Flags, postOk: bool, getOk: bool, postOk2: bool, getOk2: bool)
    requires f.Valid()
    requires CredentialLogin(f, postOk, getOk).1.None?
    ensures var g := CredentialLogin(f, postOk, getOk).0;
            g.authenticated && CredentialLogin(g, postOk2, getOk2) == (g, None)
    ensures !f.authenticated ==> CredentialLogin(f, postOk, getOk).0 == Flags(true, true)
  {
  }

  /**
   * Once authenticated without the project login, credential login does
   * not retry it: it returns at once, and only `login_to_project` can
   * complete the login.
   */
  lemma NoProjectRetry(postOk: bool, getOk: bool)
    ensures CredentialLogin(Flags(true, false), postOk, getOk) == (Flags(true, false), None)
    ensures ProjectLogin(Flags(true, false), getOk).0.webLoggedIn == getOk
  {
  }

  /** A project-login failure during credential login leaves the client authenticated but not in the project. */
  lemma ProjectFailureKeepsAuthentication(f: Flags)
    requires f == Flags(false, false)
    ensures CredentialLogin(f, true, false) == (Flags(true, false), Some(AuthenticationFailed(Some(ProjectLoginFailed))))
  {
  }

  class Authenticator {
    const executor: Executor
    const session: Session
    var authenticated: bool
    var webLoggedIn: bool

    function State(): Flags
      reads this
    {
      Flags(authenticated, webLoggedIn)
    }

    predicate Valid()
      reads this
    {
      State().Valid()
    }

    constructor (executor: Executor, session: Session)
      ensures this.executor == executor && this.session == session
      ensures !authenticated && !webLoggedIn
      ensures Valid()
    {
      this.executor := executor;
      this.session := session;
      authenticated := false;
      webLoggedIn := false;
    }

    /**
     * `login_with_client_credentials`: nothing when already authenticated;
     * otherwise the credentials POST, and after it succeeds the project
     * login, whose failure surfaces as a failed authentication while
     * `authenticated` stays set.
     */
    method LoginWithClientCredentials() returns (err: Option<AuthError>)
      requires Valid()
      modifies this, executor
      ensures Valid()
      ensures (State(), err) == CredentialLogin(old(State()), old(executor.NextSucceeds()),
                                                |old(executor.requests)| + 1 !in executor.failures)
      ensures executor.requests == old(executor.requests) +
                (if old(authenticated) then []
                 else if !old(executor.NextSucceeds()) then [Request(Post, AuthenticationPoint)]
                 else [Request(Post, AuthenticationPoint), Request(Get, WebLogin)])
    {
      if authenticated {
        return None;
      }
      var ok := executor.Execute(Request(Post, AuthenticationPoint));
      if !ok {
        return Some(AuthenticationFailed(None));
      }
      authenticated := true;
      var projectErr := LoginToProject();
      if projectErr.Some? {
        return Some(AuthenticationFailed(projectErr));
      }
      return None;
    }

    /**
     * `login_to_project`: refused before authentication, nothing when
     * already logged in, otherwise the project GET, which sets
     * `web_logged_in` only when it succeeds.
     */
    method LoginToProject() returns (err: Option<AuthError>)
      requires Valid()
      modifies this, executor
      ensures Valid()
      ensures (State(), err) == ProjectLogin(old(State()), old(executor.NextSucceeds()))
      ensures executor.requests == old(executor.requests) +
                (if old(authenticated) && !old(webLoggedIn) then [Request(Get, WebLogin)] else [])
    {
      if !authenticated {
        return Some(NotAuthenticated);
      }
      if webLoggedIn {
        return None;
      }
      var ok := executor.Execute(Request(Get, WebLogin));
      if !ok {
        return Some(ProjectLoginFailed);
      }
      webLoggedIn := true;
      return None;
    }

    /**
     * `logout`: nothing when not authenticated; otherwise the logout GET,
     * whose failure is only logged, and then, whatever happened, the
     * cookies are cleared and both flags reset.
     */
    method Logout()
      requires Valid()
      modifies this, executor, session
      ensures Valid()
      ensures State() == LogoutFlags(old(State()))
      ensures old(authenticated) ==> executor.requests == old(executor.requests) + [Request(Get, LogoutPoint)]
                                     && session.cookies == map[]
      ensures !old(authenticated) ==> executor.requests == old(executor.requests)
                                      && session.cookies == old(session.cookies)
    {
      if !authenticated {
        return;
      }
      var ok := executor.Execute(Request(Get, LogoutPoint));
      session.ClearCookies();
      authenticated := false;
      webLoggedIn := false;
    }
  }
}
