/** The admin session: the login action that checks the password and sets
    the session cookie, logout, and the request gate in front of the admin
    dashboard. The cookie cipher is a pair of parameters: `encrypt` turns a
    session into a cookie value, `decrypt` is partial (a value it cannot read,
    or one whose decoding throws, yields `None`). */
module Auth {
  import opened Base
  import opened JsStrings

  datatype User = User(email: string, name: string)

  /** What the session cookie carries. */
  datatype Session = Session(user: User, expires: int)

  /** A cookie as the server sets it; times are milliseconds since the epoch. */
  datatype Cookie = Cookie(name: string, value: string, expires: int, httpOnly: bool)

  const AdminUser: User := User("admin@example.com", "Admin")
  const FallbackPassword: string := "admin123"
  const SessionCookieName: string := "session"
  /** One day. */
  const SessionLifetimeMs: int := 24 * 60 * 60 * 1000
  const DashboardPath: string := "/admin/dashboard"
  const LoginPath: string := "/admin/login"

  /** `process.env.ADMIN_PASSWORD || 'admin123'`: an unset or empty setting
      falls back to the built-in password. */
  function ExpectedPassword(setting: Option<string>): (p: string)
    ensures setting.Some? && setting.value != "" ==> p == setting.value
    ensures setting.None? || setting.value == "" ==> p == FallbackPassword
  {
    match setting
    case Some(s) => if s != "" then s else FallbackPassword
    case None => FallbackPassword
  }

  datatype LoginResult =
    | LoggedIn(cookie: Cookie, location: string)
    | LoginRejected(message: string)

  /** The login action. `password` is the submitted field (`None` when it was
      not submitted), `now` the clock reading. */
  function Login(password: Option<string>, setting: Option<string>, now: int,
                 encrypt: Session -> string): (r: LoginResult)
    ensures r.LoggedIn? <==> password == Some(ExpectedPassword(setting))
    ensures r.LoggedIn? ==>
      && r.location == DashboardPath
      && r.cookie.name == SessionCookieName
      && r.cookie.httpOnly
      && r.cookie.expires == now + 86_400_000
      && r.cookie.value == encrypt(Session(AdminUser, now + 86_400_000))
    ensures r.LoginRejected? ==> r.message == "Invalid password"
  {
    if password == Some(ExpectedPassword(setting)) then
      var expires := now + SessionLifetimeMs;
      LoggedIn(Cookie(SessionCookieName, encrypt(Session(AdminUser, expires)), expires, true), DashboardPath)
    else
      LoginRejected("Invalid password")
  }

  /** Logout overwrites the session cookie with an empty, already expired one
      and sends the browser to the login page. */
  function Logout(): (r: (Cookie, string))
    ensures r.0.name == SessionCookieName && r.0.value == "" && r.0.expires <= 0
    ensures r.1 == LoginPath
  {
    (Cookie(SessionCookieName, "", 0, false), LoginPath)
  }

  /** The value a browser sends back at time `now`: none once the cookie has
      expired (section 5.3 of RFC 6265). */
  function SentValue(c: Cookie, now: int): (v: Option<string>)
    ensures v.Some? <==> now < c.expires
    ensures v.Some? ==> v.value == c.value
  {
    if now < c.expires then Some(c.value) else None
  }

  // ---------------------------------------------------------------- the gate

  datatype Decision = Next | Redirect(location: string)

  /** The paths the gate protects. */
  predicate IsProtected(path: string) {
    StartsWith(path, DashboardPath)
  }

  /** The paths the gate is installed on: the dashboard and everything below it. */
  predicate GateInstalled(path: string) {
    path == DashboardPath || StartsWith(path, DashboardPath + "/")
  }

  /** The session a request presents: none without a cookie, with an empty
      cookie, or with one that does not decrypt. */
  function PresentedSession(cookie: Option<string>, decrypt: string -> Option<Session>): (s: Option<Session>)
    ensures cookie.None? || cookie == Some("") ==> s.None?
    ensures cookie.Some? && cookie.value != "" ==> s == decrypt(cookie.value)
  {
    match cookie
    case Some(c) => if c != "" then decrypt(c) else None
    case None => None
  }

  /** The gate: a protected path without a readable session is redirected to
      the login page; everything else passes through. */
  function Middleware(path: string, cookie: Option<string>, decrypt: string -> Option<Session>): (d: Decision)
    ensures !IsProtected(path) ==> d == Next
    ensures d == Next || d == Redirect(LoginPath)
    ensures IsProtected(path) ==> (d == Redirect(LoginPath) <==> PresentedSession(cookie, decrypt).None?)
  {
    if IsProtected(path) && PresentedSession(cookie, decrypt).None? then Redirect(LoginPath) else Next
  }

  /** A request as served: the gate runs only on the paths it is installed on. */
  function Serve(path: string, cookie: Option<string>, decrypt: string -> Option<Session>): (d: Decision)
    ensures d == Redirect(LoginPath) <==> GateInstalled(path) && PresentedSession(cookie, decrypt).None?
  {
    if GateInstalled(path) then Middleware(path, cookie, decrypt) else Next
  }

  /** Every path the gate is installed on is one it protects. */
  lemma InstalledPathsAreProtected(path: string)
    requires GateInstalled(path)
    ensures IsProtected(path)
  {
    if path != DashboardPath {
      assert (DashboardPath + "/")[..|DashboardPath|] == DashboardPath;
      assert path[..|DashboardPath|] == (DashboardPath + "/")[..|DashboardPath|];
    }
  }

  /** A cookie that does not decrypt is treated exactly like no cookie. */
  lemma UnreadableCookieIsNoCookie(path: string, c: string, decrypt: string -> Option<Session>)
    requires decrypt(c).None?
    ensures Middleware(path, Some(c), decrypt) == Middleware(path, None, decrypt)
  {
  }

  /** Logging in with the right password and coming back to a dashboard page
      before the cookie expires passes the gate, provided the cipher writes a
      non-empty token and reads back what it wrote. */
  lemma LoginOpensDashboard(password: Option<string>, setting: Option<string>, now: int, later: int,
                            path: string, encrypt: Session -> string, decrypt: string -> Option<Session>)
    requires password == Some(ExpectedPassword(setting))
    requires now <= later < now + SessionLifetimeMs
    requires forall s :: encrypt(s) != "" && decrypt(encrypt(s)) == Some(s)
    ensures Login(password, setting, now, encrypt).LoggedIn?
    ensures Middleware(path, SentValue(Login(password, setting, now, encrypt).cookie, later), decrypt) == Next
  {
    var c := Login(password, setting, now, encrypt).cookie;
    assert decrypt(c.value) == Some(Session(AdminUser, now + SessionLifetimeMs));
  }

  /** After logout the browser presents no session and every protected page
      redirects to the login page. */
  lemma LogoutClosesDashboard(path: string, later: int, decrypt: string -> Option<Session>)
    requires IsProtected(path) && later >= 0
    ensures Middleware(path, SentValue(Logout().0, later), decrypt) == Redirect(LoginPath)
  {
  }
}
