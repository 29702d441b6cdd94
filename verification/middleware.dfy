/**
  The authentication middleware (api/api.go). A request arrives with its cookies; the middleware
  writes to the response, may rotate the refresh token, and may run the wrapped handler with an
  identity bound in the request context. `AuthUser` and `AuthVisitor` model the code as it is
  written, fall-throughs included; `AuthUserFixed` is the evidently intended user middleware
  (see the findings).
*/
module Middleware {
  import opened Wrappers
  import opened Http
  import opened Database
  import opened TokenStore
  import RefreshToken
  import Jwt
  import Cookies
  import Uuid
  import Durations

  /** The request's cookies, by name (the first of each name, as `r.Cookie` returns it). */
  type Jar = map<string, string>

  datatype Config = Config(secret: string, accessMinutes: int, refreshDays: int)

  /**
    What the request meets besides its cookies: the clock, the random key a rotation would draw,
    the refresh-token table's default expiry, the failing queries, and the user table
    (`GetUserByID`).
  */
  datatype World = World(
    now: int,
    random: Option<RefreshToken.Key>,
    defaultExpiry: int,
    failing: set<Op>,
    getUser: string -> Lookup<User>)

  /** What the middleware did: the response log and the refresh-token table afterwards. */
  datatype Pass = Pass(log: Log, store: Store)

  const LoginPath: string := "/api/login"
  const InactivePath: string := "/login"
  /** The name the rotated refresh cookie gets at api/api.go:151. */
  const BareRefreshCookieName: string := "refresh_token"

  const AccessName: string := Cookies.AccessCookieName(Cookies.UserKind)
  const RefreshName: string := Cookies.RefreshCookieName(Cookies.UserKind)

  /** Clear both user cookies, then redirect to the login endpoint. */
  function ToLogin(cfg: Config, now: int): (log: Log)
    ensures FirstStatus(log) == Some(StatusSeeOther)
    ensures DeliveredCookies(log) == Cookies.ClearAuthCookies(Cookies.UserKind, cfg.accessMinutes, cfg.refreshDays, now)
    ensures forall i :: 0 <= i < |log| ==> !log[i].Serve?
  {
    var cs := Cookies.ClearAuthCookies(Cookies.UserKind, cfg.accessMinutes, cfg.refreshDays, now);
    FirstStatusAfterCookies(cs, [Redirect(LoginPath, StatusSeeOther)]);
    CookiesBeforeStatusDelivered(cs, [Redirect(LoginPath, StatusSeeOther)]);
    SetCookies(cs) + [Redirect(LoginPath, StatusSeeOther)]
  }

  predicate Serves(log: Log) {
    exists i :: 0 <= i < |log| && log[i].Serve?
  }

  /** The wrapped handler runs with `id` bound under `key`. */
  predicate ServesAs(log: Log, key: string, id: string) {
    exists i :: 0 <= i < |log| && log[i] == Serve(Bound(key, id))
  }

  /**
    api/api.go:59-81 (and the identical 109-131): rotate the refresh cookie's token; on success set
    both new cookies and send the client back to the same path, on failure clear the cookies and
    redirect to login. The failure's status is the one rotation already wrote (404 or 500): the
    clearing cookies and the redirect come too late to take effect.
  */
  function RotateAndRetry(cfg: Config, w: World, s: Store, refreshValue: string, path: string): (p: Pass)
    ensures var rot := RefreshToken.Rotate(s, refreshValue, w.random, w.defaultExpiry, w.now, w.failing);
      p.store == rot.store
      && !Serves(p.log)
      && (rot.result.Err? ==>
            FirstStatus(p.log) == FirstStatus(rot.log)
            && FirstStatus(p.log) in {Some(StatusNotFound), Some(StatusInternalServerError)}
            && DeliveredCookies(p.log) == [])
      && (rot.result.Ok? ==>
            FirstStatus(p.log) == Some(StatusSeeOther)
            && p.log[|p.log| - 1] == Redirect(path, StatusSeeOther)
            && DeliveredCookies(p.log) == Cookies.SetAuthCookies(
                 Jwt.MakeJWT(rot.result.value.record.owner, Cookies.UserKind, cfg.secret, cfg.accessMinutes, w.now),
                 rot.result.value.token, Cookies.UserKind, cfg.accessMinutes, cfg.refreshDays, w.now))
  {
    var rot := RefreshToken.Rotate(s, refreshValue, w.random, w.defaultExpiry, w.now, w.failing);
    match rot.result
    case Err(_) =>
      var log := rot.log + ToLogin(cfg, w.now);
      assert log[0] == rot.log[0];
      Pass(log, rot.store)
    case Ok(issued) =>
      var access := Jwt.MakeJWT(issued.record.owner, Cookies.UserKind, cfg.secret, cfg.accessMinutes, w.now);
      var cs := Cookies.SetAuthCookies(access, issued.token, Cookies.UserKind, cfg.accessMinutes, cfg.refreshDays, w.now);
      var tail := [Redirect(path, StatusSeeOther)];
      FirstStatusAfterCookies(cs, tail);
      CookiesBeforeStatusDelivered(cs, tail);
      Pass(SetCookies(cs) + tail, rot.store)
  }

  /** The cookie api/api.go:150-158 sets after a successful rotation. */
  function RotatedCookie(name: string, cfg: Config, token: string, now: int): Cookie {
    Cookie(name, token, Cookies.RefreshPath, now + Durations.DayOffset(cfg.refreshDays), true, true, SameSiteStrict)
  }

  /**
    api/api.go:135-179, reached with the subject `id` of a valid user token: rotate, set the
    rotated cookie under `refreshCookie`, look the user up and run the handler. An inactive user
    is redirected and, when `stopInactive` is false, served all the same.
  */
  function ServeUser(cfg: Config, w: World, s: Store, refreshValue: string, id: string,
                     refreshCookie: string, stopInactive: bool): (p: Pass)
    ensures var rot := RefreshToken.Rotate(s, refreshValue, w.random, w.defaultExpiry, w.now, w.failing);
      p.store == rot.store
      && (rot.result.Err? ==> p.log == rot.log)
      && (rot.result.Ok? ==>
            |p.log| >= 2 && p.log[0] == SetCookie(RotatedCookie(refreshCookie, cfg, rot.result.value.token, w.now))
            && (w.getUser(id).NoRows? ==> p.log[1..] == ToLogin(cfg, w.now))
            && (w.getUser(id).DbError? ==> p.log[1..] == [Write(StatusInternalServerError)])
            && (w.getUser(id).Found? && w.getUser(id).value.isActive ==>
                  p.log[1..] == [Serve(Bound(Cookies.UserIDContextKey, id))])
            && (w.getUser(id).Found? && !w.getUser(id).value.isActive ==>
                  p.log[1] == Redirect(InactivePath, StatusSeeOther)
                  && (ServesAs(p.log, Cookies.UserIDContextKey, id) <==> !stopInactive)))
    ensures forall i :: 0 <= i < |p.log| && p.log[i].Serve? ==>
      p.log[i] == Serve(Bound(Cookies.UserIDContextKey, id)) && w.getUser(id).Found?
      && (stopInactive ==> w.getUser(id).value.isActive)
  {
    var rot := RefreshToken.Rotate(s, refreshValue, w.random, w.defaultExpiry, w.now, w.failing);
    match rot.result
    case Err(_) => Pass(rot.log, rot.store)
    case Ok(issued) =>
      var kept := [SetCookie(RotatedCookie(refreshCookie, cfg, issued.token, w.now))];
      match w.getUser(id)
      case NoRows => Pass(kept + ToLogin(cfg, w.now), rot.store)
      case DbError => Pass(kept + [Write(StatusInternalServerError)], rot.store)
      case Found(u) =>
        var serve := [Serve(Bound(Cookies.UserIDContextKey, id))];
        if u.isActive then Pass(kept + serve, rot.store)
        else if stopInactive then Pass(kept + [Redirect(InactivePath, StatusSeeOther)], rot.store)
        else
          var log := kept + [Redirect(InactivePath, StatusSeeOther)] + serve;
          assert log[2] == serve[0];
          Pass(log, rot.store)
  }

  /** AuthUserMiddleware, as written. */
  function AuthUser(cfg: Config, w: World, s: Store, jar: Jar, path: string): (p: Pass)
    // No access cookie, a refresh cookie: rotate and retry; the handler does not run.
    ensures AccessName !in jar && RefreshName in jar ==> p == RotateAndRetry(cfg, w, s, jar[RefreshName], path)
    // Neither cookie: the handler runs with identity "", then the code falls into the
    // missing-refresh-cookie branch and redirects to login.
    ensures AccessName !in jar && RefreshName !in jar ==>
      p == Pass([Serve(Bound(Cookies.UserIDContextKey, ""))] + ToLogin(cfg, w.now), s)
    // An access cookie without a refresh cookie: clear and redirect to login.
    ensures AccessName in jar && RefreshName !in jar ==> p == Pass(ToLogin(cfg, w.now), s)
    // Any token whose kind is not "user" (every invalid token among them): 400 and a redirect.
    ensures AccessName in jar && RefreshName in jar
            && Jwt.ValidateJWT(jar[AccessName], cfg.secret, w.now).userType != Cookies.UserKind ==>
      p == Pass([Write(StatusBadRequest), Redirect(LoginPath, StatusSeeOther)], s)
    // Only a valid user token gets further: rotation, the bare-named cookie, lookup, handler.
    ensures AccessName in jar && RefreshName in jar
            && Jwt.ValidateJWT(jar[AccessName], cfg.secret, w.now).userType == Cookies.UserKind ==>
      var v := Jwt.ValidateJWT(jar[AccessName], cfg.secret, w.now);
      v.err.None? && p == ServeUser(cfg, w, s, jar[RefreshName], v.id, BareRefreshCookieName, false)
    // The handler runs with a non-empty user identity only for the subject of a valid user-kind
    // access token whose user exists.
    ensures forall id :: ServesAs(p.log, Cookies.UserIDContextKey, id) && id != "" ==>
      AccessName in jar && RefreshName in jar
      && var v := Jwt.ValidateJWT(jar[AccessName], cfg.secret, w.now);
      v.err.None? && v.userType == Cookies.UserKind && v.id == id && w.getUser(id).Found?
  {
    if AccessName !in jar then
      if RefreshName in jar then RotateAndRetry(cfg, w, s, jar[RefreshName], path)
      else Pass([Serve(Bound(Cookies.UserIDContextKey, ""))] + ToLogin(cfg, w.now), s)
    else if RefreshName !in jar then Pass(ToLogin(cfg, w.now), s)
    else
      var v := Jwt.ValidateJWT(jar[AccessName], cfg.secret, w.now);
      if v.userType != Cookies.UserKind then
        Pass([Write(StatusBadRequest), Redirect(LoginPath, StatusSeeOther)], s)
      else
        ServeUser(cfg, w, s, jar[RefreshName], v.id, BareRefreshCookieName, false)
  }


  /**
    The user middleware as evidently intended: the handler alone runs when there are no cookies
    (api/api.go:82-86 lacks a `return`); an invalid access token is rotated before its kind is
    checked (the check at api/api.go:101 comes first and swallows every invalid token); the
    rotated cookie keeps its name `user_refresh_token` (api/api.go:151); an inactive user is
    redirected and not served (api/api.go:171-173 lacks a `return`).
  */
  function AuthUserFixed(cfg: Config, w: World, s: Store, jar: Jar, path: string): (p: Pass)
    ensures AccessName !in jar && RefreshName in jar ==> p == RotateAndRetry(cfg, w, s, jar[RefreshName], path)
    ensures AccessName !in jar && RefreshName !in jar ==> p == Pass([Serve(Bound(Cookies.UserIDContextKey, ""))], s)
    ensures AccessName in jar && RefreshName !in jar ==> p == Pass(ToLogin(cfg, w.now), s)
    ensures AccessName in jar && RefreshName in jar ==>
      var v := Jwt.ValidateJWT(jar[AccessName], cfg.secret, w.now);
      (v.err.Some? ==> p == RotateAndRetry(cfg, w, s, jar[RefreshName], path))
      && (v.err.None? && v.userType != Cookies.UserKind ==>
            p == Pass([Write(StatusBadRequest), Redirect(LoginPath, StatusSeeOther)], s))
      && (v.err.None? && v.userType == Cookies.UserKind ==>
            p == ServeUser(cfg, w, s, jar[RefreshName], v.id, RefreshName, true))
  {
    if AccessName !in jar then
      if RefreshName in jar then RotateAndRetry(cfg, w, s, jar[RefreshName], path)
      else Pass([Serve(Bound(Cookies.UserIDContextKey, ""))], s)
    else if RefreshName !in jar then Pass(ToLogin(cfg, w.now), s)
    else
      var v := Jwt.ValidateJWT(jar[AccessName], cfg.secret, w.now);
      if v.err.Some? then RotateAndRetry(cfg, w, s, jar[RefreshName], path)
      else if v.userType != Cookies.UserKind then
        Pass([Write(StatusBadRequest), Redirect(LoginPath, StatusSeeOther)], s)
      else ServeUser(cfg, w, s, jar[RefreshName], v.id, RefreshName, true)
  }

  /** As intended, the handler runs with a non-empty identity only for an active user holding a valid token. */
  lemma AuthUserFixedServesOnlyActiveUsers(cfg: Config, w: World, s: Store, jar: Jar, path: string, id: string)
    requires ServesAs(AuthUserFixed(cfg, w, s, jar, path).log, Cookies.UserIDContextKey, id) && id != ""
    ensures AccessName in jar && RefreshName in jar
    ensures var v := Jwt.ValidateJWT(jar[AccessName], cfg.secret, w.now);
      v.err.None? && v.userType == Cookies.UserKind && v.id == id
      && w.getUser(id).Found? && w.getUser(id).value.isActive
  {
    var p := AuthUserFixed(cfg, w, s, jar, path);
    var i :| 0 <= i < |p.log| && p.log[i] == Serve(Bound(Cookies.UserIDContextKey, id));
    FixedServedIdentity(cfg, w, s, jar, path);
    assert p.log[i].Serve?;
  }

  /** Every handler run of the intended middleware is anonymous or for an active, validated user. */
  lemma FixedServedIdentity(cfg: Config, w: World, s: Store, jar: Jar, path: string)
    ensures var p := AuthUserFixed(cfg, w, s, jar, path);
      forall i :: 0 <= i < |p.log| && p.log[i].Serve? ==>
        p.log[i] == Serve(Bound(Cookies.UserIDContextKey, ""))
        || (AccessName in jar && RefreshName in jar
            && var v := Jwt.ValidateJWT(jar[AccessName], cfg.secret, w.now);
            v.err.None? && v.userType == Cookies.UserKind
            && p.log[i] == Serve(Bound(Cookies.UserIDContextKey, v.id))
            && w.getUser(v.id).Found? && w.getUser(v.id).value.isActive)
  {
    if AccessName in jar && RefreshName in jar {
      var v := Jwt.ValidateJWT(jar[AccessName], cfg.secret, w.now);
      if v.err.None? && v.userType == Cookies.UserKind {
        var p := ServeUser(cfg, w, s, jar[RefreshName], v.id, RefreshName, true);
        assert AuthUserFixed(cfg, w, s, jar, path) == p;
      }
    }
  }

  /**
    An expired access token with a refresh cookie: as written the request ends in 400 and the
    refresh token is never used; as intended the refresh token is rotated.
  */
  lemma ExpiredAccessToken(cfg: Config, w: World, s: Store, jar: Jar, path: string, id: string,
                           minutes: int, issuedAt: int)
    requires AccessName in jar && RefreshName in jar
    requires jar[AccessName] == Jwt.MakeJWT(id, Cookies.UserKind, cfg.secret, minutes, issuedAt)
    requires w.now > issuedAt + Durations.MinuteOffset(minutes)
    ensures AuthUser(cfg, w, s, jar, path) == Pass([Write(StatusBadRequest), Redirect(LoginPath, StatusSeeOther)], s)
    ensures FirstStatus(AuthUser(cfg, w, s, jar, path).log) == Some(StatusBadRequest)
    ensures AuthUserFixed(cfg, w, s, jar, path) == RotateAndRetry(cfg, w, s, jar[RefreshName], path)
  {
    Jwt.ExpiredAfterLifetime(id, Cookies.UserKind, cfg.secret, minutes, issuedAt, w.now);
  }

  /**
    A request without cookies: as written the handler runs anonymously and a redirect to login
    follows it; as intended only the handler runs.
  */
  lemma NoCookies(cfg: Config, w: World, s: Store, jar: Jar, path: string)
    requires AccessName !in jar && RefreshName !in jar
    ensures var log := AuthUser(cfg, w, s, jar, path).log;
      log[0] == Serve(Bound(Cookies.UserIDContextKey, ""))
      && log[|log| - 1] == Redirect(LoginPath, StatusSeeOther)
    ensures AuthUserFixed(cfg, w, s, jar, path).log == [Serve(Bound(Cookies.UserIDContextKey, ""))]
  {
    var tail := ToLogin(cfg, w.now);
    assert tail[|tail| - 1] == Redirect(LoginPath, StatusSeeOther);
  }

  /**
    A session minted for a subject that is not UUID text, as login mints one for the user's public
    ID (api/handler_auth.go:141), fails validation at the subject check; neither middleware then
    runs the handler.
  */
  lemma PublicIdSessionNeverServed(cfg: Config, w: World, s: Store, jar: Jar, path: string, pid: string, minutes: int)
    requires Uuid.Parse(pid).None?
    requires AccessName in jar && RefreshName in jar
    requires jar[AccessName] == Jwt.MakeJWT(pid, Cookies.UserKind, cfg.secret, minutes, w.now)
    ensures !Serves(AuthUser(cfg, w, s, jar, path).log)
    ensures !Serves(AuthUserFixed(cfg, w, s, jar, path).log)
  {
    if Durations.MinuteOffset(minutes) >= 0 {
      Jwt.NonUuidSubjectFails(pid, Cookies.UserKind, cfg.secret, minutes, w.now);
    } else {
      Jwt.ExpiredAfterLifetime(pid, Cookies.UserKind, cfg.secret, minutes, w.now, w.now);
    }
    InvalidTokenNeverServed(cfg, w, s, jar, path);
  }

  /** With both cookies, an access token that fails validation never reaches the handler. */
  lemma InvalidTokenNeverServed(cfg: Config, w: World, s: Store, jar: Jar, path: string)
    requires AccessName in jar && RefreshName in jar
    requires Jwt.ValidateJWT(jar[AccessName], cfg.secret, w.now).err.Some?
    ensures !Serves(AuthUser(cfg, w, s, jar, path).log)
    ensures !Serves(AuthUserFixed(cfg, w, s, jar, path).log)
  {
    var bad := [Write(StatusBadRequest), Redirect(LoginPath, StatusSeeOther)];
    assert AuthUser(cfg, w, s, jar, path).log == bad;
    assert !bad[0].Serve? && !bad[1].Serve?;
    assert AuthUserFixed(cfg, w, s, jar, path) == RotateAndRetry(cfg, w, s, jar[RefreshName], path);
  }

  /** A cookie as the browser stores it: its value and the path it was set with. */
  datatype Held = Held(value: string, path: string)

  /** The browser's cookie store, by name. */
  type Browser = map<string, Held>

  /** Storing one delivered cookie replaces any cookie of that name. */
  function Hold(b: Browser, c: Cookie): Browser {
    b[c.name := Held(c.value, c.path)]
  }

  /** Section 5.1.4 of RFC 6265: request path `path` path-matches cookie path `cookiePath`. */
  predicate PathMatch(path: string, cookiePath: string) {
    path == cookiePath
    || (|cookiePath| < |path| && path[..|cookiePath|] == cookiePath
        && ((|cookiePath| > 0 && cookiePath[|cookiePath| - 1] == '/') || path[|cookiePath|] == '/'))
  }

  /** Section 5.4 of RFC 6265: the cookies a request for `path` carries, by name. */
  function Sent(b: Browser, path: string): (jar: Jar)
    ensures forall n :: n in jar <==> n in b && PathMatch(path, b[n].path)
    ensures forall n :: n in jar ==> jar[n] == b[n].value
  {
    map n | n in b && PathMatch(path, b[n].path) :: b[n].value
  }

  /**
    After a login the browser holds both user cookies, but the refresh cookie is scoped to
    /api/refresh (auth/auth.go:115). A request for any other path carries the access cookie alone,
    and the middleware, as written and as intended, clears the session and redirects to login.
  */
  lemma SessionOutsideRefreshPath(cfg: Config, w: World, s: Store, b: Browser, access: string, refresh: string,
                                  minutes: int, days: int, setAt: int, path: string)
    requires |path| > 0 && path[0] == '/' && !PathMatch(path, Cookies.RefreshPath)
    ensures var cs := Cookies.SetAuthCookies(access, refresh, Cookies.UserKind, minutes, days, setAt);
      var jar := Sent(Hold(Hold(b, cs[0]), cs[1]), path);
      AccessName in jar && jar[AccessName] == access && RefreshName !in jar
      && AuthUser(cfg, w, s, jar, path) == Pass(ToLogin(cfg, w.now), s)
      && AuthUserFixed(cfg, w, s, jar, path) == Pass(ToLogin(cfg, w.now), s)
  {
    var cs := Cookies.SetAuthCookies(access, refresh, Cookies.UserKind, minutes, days, setAt);
    Cookies.KeysDistinct();
    var b' := Hold(Hold(b, cs[0]), cs[1]);
    assert b'[AccessName] == Held(access, Cookies.AccessPath);
    assert PathMatch(path, Cookies.AccessPath) by { assert path[..1] == Cookies.AccessPath; }
  }

  /** Only on the refresh path does the request carry both cookies of a fresh session. */
  lemma SessionOnRefreshPath(b: Browser, access: string, refresh: string, minutes: int, days: int, setAt: int)
    ensures var cs := Cookies.SetAuthCookies(access, refresh, Cookies.UserKind, minutes, days, setAt);
      var jar := Sent(Hold(Hold(b, cs[0]), cs[1]), Cookies.RefreshPath);
      AccessName in jar && jar[AccessName] == access && RefreshName in jar && jar[RefreshName] == refresh
  {
    var cs := Cookies.SetAuthCookies(access, refresh, Cookies.UserKind, minutes, days, setAt);
    Cookies.KeysDistinct();
    var b' := Hold(Hold(b, cs[0]), cs[1]);
    assert b'[AccessName] == Held(access, Cookies.AccessPath);
    assert PathMatch(Cookies.RefreshPath, Cookies.AccessPath) by {
      assert Cookies.RefreshPath[..1] == Cookies.AccessPath;
    }
  }

  /** The cookies the browser holds after a response: each delivered cookie replaces its name. */
  function Receive(jar: Jar, cs: seq<Cookie>): (j: Jar)
    ensures forall n :: n in j <==> n in jar || exists i :: 0 <= i < |cs| && cs[i].name == n
    decreases |cs|
  {
    if cs == [] then jar
    else
      var j := Receive(jar[cs[0].name := cs[0].value], cs[1..]);
      assert forall i :: 1 <= i < |cs| ==> cs[i] == cs[1..][i - 1];
      j
  }

  lemma {:induction false} ReceiveKeeps(jar: Jar, cs: seq<Cookie>, n: string)
    requires forall i :: 0 <= i < |cs| ==> cs[i].name != n
    requires n in jar
    ensures Receive(jar, cs)[n] == jar[n]
    decreases |cs|
  {
    if cs != [] {
      ReceiveKeeps(jar[cs[0].name := cs[0].value], cs[1..], n);
    }
  }

  /** What the browser keeps when an active user is served after a successful rotation. */
  lemma ServedActiveUser(cfg: Config, w: World, s: Store, refreshValue: string, id: string,
                         refreshCookie: string, stopInactive: bool)
    requires w.getUser(id).Found? && w.getUser(id).value.isActive
    requires RefreshToken.Rotate(s, refreshValue, w.random, w.defaultExpiry, w.now, w.failing).result.Ok?
    ensures var p := ServeUser(cfg, w, s, refreshValue, id, refreshCookie, stopInactive);
      var issued := RefreshToken.Rotate(s, refreshValue, w.random, w.defaultExpiry, w.now, w.failing).result.value;
      p.log == [SetCookie(RotatedCookie(refreshCookie, cfg, issued.token, w.now)), Serve(Bound(Cookies.UserIDContextKey, id))]
      && DeliveredCookies(p.log) == [RotatedCookie(refreshCookie, cfg, issued.token, w.now)]
  {
    var p := ServeUser(cfg, w, s, refreshValue, id, refreshCookie, stopInactive);
    assert p.log == [p.log[0]] + p.log[1..];
  }

  lemma ReceiveOne(jar: Jar, c: Cookie)
    ensures Receive(jar, [c]) == jar[c.name := c.value]
  {
    assert [c][1..] == [];
  }

  /**
    A valid user token and an active refresh token for an existing, active user: the refresh
    token is revoked and replaced, but the replacement goes into a cookie named `refresh_token`,
    so the browser keeps the revoked token under `user_refresh_token`.
  */
  lemma RotatedCookieLost(cfg: Config, w: World, s: Store, jar: Jar, path: string)
    requires AccessName in jar && RefreshName in jar
    requires var v := Jwt.ValidateJWT(jar[AccessName], cfg.secret, w.now);
      v.userType == Cookies.UserKind && w.getUser(v.id).Found? && w.getUser(v.id).value.isActive
    requires RefreshToken.Rotate(s, jar[RefreshName], w.random, w.defaultExpiry, w.now, w.failing).result.Ok?
    ensures var p := AuthUser(cfg, w, s, jar, path);
      var issued := RefreshToken.Rotate(s, jar[RefreshName], w.random, w.defaultExpiry, w.now, w.failing).result.value;
      Receive(jar, DeliveredCookies(p.log)) == jar[BareRefreshCookieName := issued.token]
      && jar[RefreshName] in p.store && !Active(p.store[jar[RefreshName]])
  {
    var v := Jwt.ValidateJWT(jar[AccessName], cfg.secret, w.now);
    var issued := RefreshToken.Rotate(s, jar[RefreshName], w.random, w.defaultExpiry, w.now, w.failing).result.value;
    var p := ServeUser(cfg, w, s, jar[RefreshName], v.id, BareRefreshCookieName, false);
    assert AuthUser(cfg, w, s, jar, path) == p;
    ServedActiveUser(cfg, w, s, jar[RefreshName], v.id, BareRefreshCookieName, false);
    ReceiveOne(jar, RotatedCookie(BareRefreshCookieName, cfg, issued.token, w.now));
    RotationRevokesPrior(s, jar[RefreshName], w.random, w.defaultExpiry, w.now, w.failing);
  }

  /** A successful rotation leaves the presented token in the table, revoked. */
  lemma RotationRevokesPrior(s: Store, cookieValue: string, random: Option<RefreshToken.Key>, defaultExpiry: int,
                             now: int, failing: set<Op>)
    requires RefreshToken.Rotate(s, cookieValue, random, defaultExpiry, now, failing).result.Ok?
    ensures var rot := RefreshToken.Rotate(s, cookieValue, random, defaultExpiry, now, failing);
      cookieValue in rot.store && !Active(rot.store[cookieValue])
  {
    var rot := RefreshToken.Rotate(s, cookieValue, random, defaultExpiry, now, failing);
    assert rot.result.value.token != cookieValue;
    assert rot.store[cookieValue] == Revoked(s[cookieValue], now);
  }

  /** A request whose refresh cookie holds a revoked token ends with rotation's 404, unserved. */
  lemma RevokedRefreshCookieFails(cfg: Config, w: World, s: Store, jar: Jar, path: string)
    requires AccessName in jar && RefreshName in jar
    requires Jwt.ValidateJWT(jar[AccessName], cfg.secret, w.now).userType == Cookies.UserKind
    requires RevokeByTokenOp !in w.failing
    requires jar[RefreshName] in s && !Active(s[jar[RefreshName]])
    ensures AuthUser(cfg, w, s, jar, path).log == [Write(StatusNotFound)]
  {
  }

  /** As intended, the browser's `user_refresh_token` is replaced by the new, active token. */
  lemma RotatedCookieKept(cfg: Config, w: World, s: Store, jar: Jar, path: string)
    requires AccessName in jar && RefreshName in jar
    requires var v := Jwt.ValidateJWT(jar[AccessName], cfg.secret, w.now);
      v.err.None? && v.userType == Cookies.UserKind && w.getUser(v.id).Found? && w.getUser(v.id).value.isActive
    requires RefreshToken.Rotate(s, jar[RefreshName], w.random, w.defaultExpiry, w.now, w.failing).result.Ok?
    ensures var p := AuthUserFixed(cfg, w, s, jar, path);
      var next := Receive(jar, DeliveredCookies(p.log));
      next == jar[RefreshName := next[RefreshName]]
      && next[RefreshName] in p.store && Active(p.store[next[RefreshName]])
  {
    var v := Jwt.ValidateJWT(jar[AccessName], cfg.secret, w.now);
    var p := ServeUser(cfg, w, s, jar[RefreshName], v.id, RefreshName, true);
    assert AuthUserFixed(cfg, w, s, jar, path) == p;
    ServedActiveUser(cfg, w, s, jar[RefreshName], v.id, RefreshName, true);
    var issued := RefreshToken.Rotate(s, jar[RefreshName], w.random, w.defaultExpiry, w.now, w.failing).result.value;
    ReceiveOne(jar, RotatedCookie(RefreshName, cfg, issued.token, w.now));
  }

  /**
    An inactive user with valid cookies: as written the handler runs with the user's identity
    after the redirect to /login; as intended it does not run.
  */
  lemma InactiveUser(cfg: Config, w: World, s: Store, jar: Jar, path: string)
    requires AccessName in jar && RefreshName in jar
    requires var v := Jwt.ValidateJWT(jar[AccessName], cfg.secret, w.now);
      v.err.None? && v.userType == Cookies.UserKind && w.getUser(v.id).Found? && !w.getUser(v.id).value.isActive
    requires RefreshToken.Rotate(s, jar[RefreshName], w.random, w.defaultExpiry, w.now, w.failing).result.Ok?
    ensures var v := Jwt.ValidateJWT(jar[AccessName], cfg.secret, w.now);
      ServesAs(AuthUser(cfg, w, s, jar, path).log, Cookies.UserIDContextKey, v.id)
    ensures !Serves(AuthUserFixed(cfg, w, s, jar, path).log)
  {
  }

  /** AuthVisitorMiddleware, as written. */
  function AuthVisitor(cfg: Config, now: int, jar: Jar): (log: Log)
    // The handler always runs, exactly once, as the last action.
    ensures 1 <= |log| <= 2 && log[|log| - 1].Serve?
    ensures forall i :: 0 <= i < |log| - 1 ==> log[i].SetCookie?
    // No cookie: served without identity and nothing else.
    ensures Cookies.AccessCookieName(Cookies.VisitorKind) !in jar ==> log == [Serve(Unbound)]
    ensures Cookies.AccessCookieName(Cookies.VisitorKind) in jar ==>
      var v := Jwt.ValidateJWT(jar[Cookies.AccessCookieName(Cookies.VisitorKind)], cfg.secret, now);
      // A kind other than "visitor" (every invalid token among them) clears the visitor cookie and
      // carries on.
      (|log| == 2 <==> v.userType != Cookies.VisitorKind)
      && (|log| == 2 ==> log[0] == SetCookie(Cookies.SetAuthCookies("", "", Cookies.VisitorKind, 2 * cfg.accessMinutes, cfg.refreshDays, now)[0]))
      // An invalid token is served without identity; a valid token of any kind binds its subject.
      && log[|log| - 1] == if v.err.Some? then Serve(Unbound) else Serve(Bound(Cookies.VisitorIDContextKey, v.id))
  {
    var name := Cookies.AccessCookieName(Cookies.VisitorKind);
    if name !in jar then [Serve(Unbound)]
    else
      var v := Jwt.ValidateJWT(jar[name], cfg.secret, now);
      var clear := if v.userType != Cookies.VisitorKind
        then SetCookies(Cookies.SetAuthCookies("", "", Cookies.VisitorKind, 2 * cfg.accessMinutes, cfg.refreshDays, now))
        else [];
      if v.err.Some? then clear + [Serve(Unbound)]
      else clear + [Serve(Bound(Cookies.VisitorIDContextKey, v.id))]
  }

  /**
    A valid user token in the visitor cookie: the cookie is cleared, yet the user's identity is
    passed on as a visitor identity.
  */
  lemma UserTokenAsVisitor(cfg: Config, now: int, jar: Jar, id: string, minutes: int, issuedAt: int)
    requires Cookies.AccessCookieName(Cookies.VisitorKind) in jar
    requires jar[Cookies.AccessCookieName(Cookies.VisitorKind)] == Jwt.MakeJWT(id, Cookies.UserKind, cfg.secret, minutes, issuedAt)
    requires Uuid.IsCanonical(id) && issuedAt <= now <= issuedAt + Durations.MinuteOffset(minutes)
    ensures var log := AuthVisitor(cfg, now, jar);
      |log| == 2 && log[1] == Serve(Bound(Cookies.VisitorIDContextKey, id))
  {
    Jwt.ValidateMadeToken(id, Cookies.UserKind, cfg.secret, minutes, issuedAt, now);
    assert Cookies.UserKind != Cookies.VisitorKind by { assert Cookies.UserKind[0] != Cookies.VisitorKind[0]; }
  }
}
