/**
  The session endpoints (api/handler_auth.go): login, refresh, logout, the revocations and the
  development listing of refresh tokens, over the refresh-token table of `TokenStore`. Password
  checking (bcrypt) is an input; the user table is a lookup function.
*/
module AuthHandlers {
  import opened Wrappers
  import opened Http
  import Database
  import opened TokenStore
  import Handlers
  import Identity
  import Cookies
  import Jwt
  import RefreshToken
  import StrUtils
  import Middleware
  import Durations

  /** A handler's response log and the refresh-token table it leaves behind. */
  datatype Exchange = Exchange(log: Log, store: Store)

  function Status(e: Exchange): (status: Option<int>) {
    FirstStatus(e.log)
  }

  const DevEnv: string := "dev"

  /** The refresh cookie the refresh endpoint reads: "user_refresh_token". */
  const RefreshCookie: string := Cookies.RefreshCookieName(Cookies.UserKind)

  datatype LoginRequest = LoginRequest(email: string, password: string)

  /** The rows GET /api/refresh lists: the active rows of `queryUser`, or every row when it is "". */
  function Listed(s: Store, queryUser: string): set<string> {
    if queryUser != "" then ActiveOf(s, queryUser) else s.Keys
  }

  /**
    GET /api/refresh: only in the "dev" environment (405 otherwise). An empty list is 404, and so
    is a failed query, whose empty result is checked first: this handler never answers 500.
  */
  function GetRefreshTokens(env: string, queryUser: string, s: Store, failing: set<Op>): (log: Log)
    ensures FirstStatus(log) == Some(StatusMethodNotAllowed) <==> env != DevEnv
    ensures env == DevEnv ==>
      FirstStatus(log) == Some(if ListOp !in failing && Listed(s, queryUser) != {} then StatusOK else StatusNotFound)
  {
    if env != DevEnv then [Write(StatusMethodNotAllowed)]
    else
      var listed := if queryUser != "" then ListActive(s, queryUser, failing) else ListAll(s, failing);
      var rows := if listed.Ok? then listed.value else {};
      if (listed.Err? && listed.error == NoRows) || |rows| == 0 then [Write(StatusNotFound)]
      else if listed.Err? then [Write(StatusInternalServerError)]
      else [Write(StatusOK)]
  }

  /**
    Login steps 3-6: a fresh access token, a fresh refresh token stored for the user with an
    expiry of `refreshDays` days from now (a Go Duration, which wraps past `Durations.MaxDays`),
    both cookies, and 200.
  */
  function Issue(cfg: Middleware.Config, user: Database.User, s: Store, random: Option<RefreshToken.Key>, now: int,
                 failing: set<Op>): (e: Exchange)
    ensures Status(e) == Some(StatusOK) <==>
      random.Some? && CreateOp !in failing && RefreshToken.MakeRefreshToken(random).value !in s
    ensures Status(e) != Some(StatusOK) ==> Status(e) == Some(StatusInternalServerError) && e.store == s
    ensures Status(e) == Some(StatusOK) ==>
      var token := RefreshToken.MakeRefreshToken(random).value;
      e.store == s[token := Record(user.publicId, now + Durations.DayOffset(cfg.refreshDays), None)]
      && DeliveredCookies(e.log) == Cookies.SetAuthCookies(
           Jwt.MakeJWT(user.publicId, Cookies.UserKind, cfg.secret, cfg.accessMinutes, now), token,
           Cookies.UserKind, cfg.accessMinutes, cfg.refreshDays, now)
  {
    var access := Jwt.MakeJWT(user.publicId, Cookies.UserKind, cfg.secret, cfg.accessMinutes, now);
    match RefreshToken.MakeRefreshToken(random)
    case None => Exchange([Write(StatusInternalServerError)], s)
    case Some(token) =>
      var create := Create(s, token, user.publicId, now + Durations.DayOffset(cfg.refreshDays), failing);
      match create.result
      case Err(_) => Exchange([Write(StatusInternalServerError)], s)
      case Ok(_) =>
        var cs := Cookies.SetAuthCookies(access, token, Cookies.UserKind, cfg.accessMinutes, cfg.refreshDays, now);
        FirstStatusAfterCookies(cs, [Write(StatusOK)]);
        CookiesBeforeStatusDelivered(cs, [Write(StatusOK)]);
        Exchange(SetCookies(cs) + [Write(StatusOK)], create.store)
  }

  /**
    Login steps 1-2: decode (400), find the user by email (401 when unknown, 500 on error), check
    the password (401, the same answer as an unknown email). Ok(user) when both pass.
  */
  function Credentials(body: Option<LoginRequest>, getUserByEmail: string -> Database.Lookup<Database.User>,
                       checkPassword: (string, string) -> bool): (c: Result<Database.User, int>)
    ensures c.Ok? <==>
      body.Some? && getUserByEmail(body.value.email).Found?
      && checkPassword(getUserByEmail(body.value.email).value.hashedPassword, body.value.password)
    ensures c.Ok? ==> c.value == getUserByEmail(body.value.email).value
    ensures body.None? ==> c == Err(StatusBadRequest)
    ensures body.Some? && getUserByEmail(body.value.email).DbError? ==> c == Err(StatusInternalServerError)
    ensures body.Some? && !getUserByEmail(body.value.email).DbError? && c.Err? ==> c == Err(StatusUnauthorized)
  {
    match body
    case None => Err(StatusBadRequest)
    case Some(req) =>
      match getUserByEmail(req.email)
      case NoRows => Err(StatusUnauthorized)
      case DbError => Err(StatusInternalServerError)
      case Found(user) =>
        if !checkPassword(user.hashedPassword, req.password) then Err(StatusUnauthorized) else Ok(user)
  }

  /**
    POST /api/login, as written: after the credentials, any successful answer of the list query
    means "already logged in" (303). The list query answers an empty list rather than "no rows",
    so login never reaches the point where it issues tokens: it never changes the table and never
    answers 200.
  */
  function Login(cfg: Middleware.Config, body: Option<LoginRequest>, getUserByEmail: string -> Database.Lookup<Database.User>,
                 checkPassword: (string, string) -> bool, s: Store, random: Option<RefreshToken.Key>, now: int,
                 failing: set<Op>): (e: Exchange)
    ensures e.store == s
    ensures Status(e) != Some(StatusOK)
    ensures Credentials(body, getUserByEmail, checkPassword).Err? ==>
      Status(e) == Some(Credentials(body, getUserByEmail, checkPassword).error)
    ensures Credentials(body, getUserByEmail, checkPassword).Ok? ==>
      Status(e) == Some(if ListOp in failing then StatusInternalServerError else StatusSeeOther)
  {
    match Credentials(body, getUserByEmail, checkPassword)
    case Err(status) => Exchange([Write(status)], s)
    case Ok(user) =>
      var listed := ListActive(s, user.publicId, failing);
      if listed.Ok? then Exchange([Write(StatusSeeOther)], s)
      else if listed.error != NoRows then Exchange([Write(StatusInternalServerError)], s)
      else Issue(cfg, user, s, random, now, failing)
  }

  /**
    POST /api/login as evidently intended: "already logged in" only when the user holds an
    active refresh token; otherwise tokens are issued.
  */
  function LoginFixed(cfg: Middleware.Config, body: Option<LoginRequest>, getUserByEmail: string -> Database.Lookup<Database.User>,
                      checkPassword: (string, string) -> bool, s: Store, random: Option<RefreshToken.Key>, now: int,
                      failing: set<Op>): (e: Exchange)
    ensures Credentials(body, getUserByEmail, checkPassword).Err? ==>
      e.store == s && Status(e) == Some(Credentials(body, getUserByEmail, checkPassword).error)
    ensures Credentials(body, getUserByEmail, checkPassword).Ok? ==>
      var user := Credentials(body, getUserByEmail, checkPassword).value;
      (ListOp in failing ==> e.store == s && Status(e) == Some(StatusInternalServerError))
      && (ListOp !in failing && ActiveOf(s, user.publicId) != {} ==> e.store == s && Status(e) == Some(StatusSeeOther))
      && (ListOp !in failing && ActiveOf(s, user.publicId) == {} ==> e == Issue(cfg, user, s, random, now, failing))
  {
    match Credentials(body, getUserByEmail, checkPassword)
    case Err(status) => Exchange([Write(status)], s)
    case Ok(user) =>
      var listed := ListActive(s, user.publicId, failing);
      if listed.Err? then Exchange([Write(StatusInternalServerError)], s)
      else if listed.value != {} then Exchange([Write(StatusSeeOther)], s)
      else Issue(cfg, user, s, random, now, failing)
  }

  /**
    With the intended check, a user without a session who logs in gets 200, both cookies, and
    exactly one active refresh token: the new one.
  */
  lemma LoginFixedStartsSession(cfg: Middleware.Config, req: LoginRequest, getUserByEmail: string -> Database.Lookup<Database.User>,
                                checkPassword: (string, string) -> bool, s: Store, key: RefreshToken.Key,
                                now: int)
    requires Credentials(Some(req), getUserByEmail, checkPassword).Ok?
    requires ActiveOf(s, getUserByEmail(req.email).value.publicId) == {}
    requires RefreshToken.MakeRefreshToken(Some(key)).value !in s
    ensures var e := LoginFixed(cfg, Some(req), getUserByEmail, checkPassword, s, Some(key), now, {});
      var owner := getUserByEmail(req.email).value.publicId;
      Status(e) == Some(StatusOK)
      && ActiveOf(e.store, owner) == {RefreshToken.MakeRefreshToken(Some(key)).value}
      && |DeliveredCookies(e.log)| == 2
  {
    var user := getUserByEmail(req.email).value;
    var token := RefreshToken.MakeRefreshToken(Some(key)).value;
    var expiry := now + Durations.DayOffset(cfg.refreshDays);
    CreateActive(s, token, user.publicId, expiry, {}, user.publicId);
  }

  /** The same login, as written, answers 303 and leaves the user without a session. */
  lemma LoginAsWrittenRefuses(cfg: Middleware.Config, req: LoginRequest, getUserByEmail: string -> Database.Lookup<Database.User>,
                              checkPassword: (string, string) -> bool, s: Store, key: RefreshToken.Key, now: int)
    requires Credentials(Some(req), getUserByEmail, checkPassword).Ok?
    requires ActiveOf(s, getUserByEmail(req.email).value.publicId) == {}
    ensures var e := Login(cfg, Some(req), getUserByEmail, checkPassword, s, Some(key), now, {});
      Status(e) == Some(StatusSeeOther) && ActiveOf(e.store, getUserByEmail(req.email).value.publicId) == {}
  {
  }

  /** `ExpiresAt.After(now)`: the row expires strictly later than now. */
  predicate StillValid(r: Record, now: int) {
    r.expiresAt > now
  }

  /**
    POST /api/refresh after the user is resolved and the list has answered: fewer or more than
    one active token revokes all of them (401, also when there are none), a rejected single token is revoked (401), a missing refresh cookie is 400,
    and otherwise the cookie's token is rotated. `fixedCheck` selects which rows are rejected:
    as written those still valid (`ExpiresAt.After(now)`), as intended those no longer valid.
  */
  function RefreshWith(fixedCheck: bool, user: Database.User, tokens: set<string>, jar: Middleware.Jar, s: Store,
                       random: Option<RefreshToken.Key>, defaultExpiry: int, now: int, failing: set<Op>): (e: Exchange)
    requires tokens == ActiveOf(s, user.publicId)
    ensures |tokens| != 1 ==>
      var rv := RevokeByOwner(s, user.publicId, now, failing);
      e.store == rv.store && Status(e) == Some(if rv.result.Ok? then StatusUnauthorized else StatusInternalServerError)
    ensures |tokens| == 1 ==>
      var t := Only(tokens);
      var rejected := user.publicId != s[t].owner || (if fixedCheck then !StillValid(s[t], now) else StillValid(s[t], now));
      (rejected ==>
         var rb := RevokeByToken(s, t, now, failing);
         e.store == rb.store && Status(e) == Some(if rb.result.Ok? then StatusUnauthorized else StatusInternalServerError))
      && (!rejected && RefreshCookie !in jar ==> e.store == s && Status(e) == Some(StatusBadRequest))
      && (!rejected && RefreshCookie in jar ==>
            var rot := RefreshToken.Rotate(s, jar[RefreshCookie], random, defaultExpiry, now, failing);
            e.store == rot.store && Status(e) == Some(if rot.result.Ok? then StatusOK else
                                                      if rot.result == Err(RefreshToken.RevokeNotFound) then StatusNotFound
                                                      else StatusInternalServerError))
  {
    if |tokens| != 1 then
      var rv := RevokeByOwner(s, user.publicId, now, failing);
      if rv.result.Err? then Exchange([Write(StatusInternalServerError)], rv.store)
      else Exchange([Write(StatusUnauthorized)], rv.store)
    else
      var t := Only(tokens);
      var row := s[t];
      var rejected := user.publicId != row.owner || (if fixedCheck then !StillValid(row, now) else StillValid(row, now));
      if rejected then
        var rb := RevokeByToken(s, t, now, failing);
        if rb.result.Err? then Exchange([Write(StatusInternalServerError)], rb.store)
        else Exchange([Write(StatusUnauthorized)], rb.store)
      else if RefreshCookie !in jar then Exchange([Write(StatusBadRequest)], s)
      else
        var rot := RefreshToken.Rotate(s, jar[RefreshCookie], random, defaultExpiry, now, failing);
        match rot.result
        case Err(_) => Exchange(rot.log + [Write(StatusInternalServerError)], rot.store)
        case Ok(_) => Exchange([Write(StatusOK)], rot.store)
  }

  /** The refresh endpoint around `RefreshWith`: resolve the user (401), list the active rows (500). */
  function RefreshFrom(fixedCheck: bool, ctx: Identity.Context, getUser: string -> Database.Lookup<Database.User>, jar: Middleware.Jar,
                       s: Store, random: Option<RefreshToken.Key>, defaultExpiry: int, now: int,
                       failing: set<Op>): (e: Exchange)
    ensures !Handlers.Identified(ctx, getUser) ==>
      e.store == s && Status(e) == Some(Handlers.UnidentifiedStatus(ctx, getUser))
    ensures Handlers.Identified(ctx, getUser) && ListOp in failing ==>
      e.store == s && Status(e) == Some(StatusInternalServerError)
    ensures Handlers.Identified(ctx, getUser) && ListOp !in failing ==>
      var user := Handlers.Accessing(ctx, getUser);
      e == RefreshWith(fixedCheck, user, ActiveOf(s, user.publicId), jar, s, random, defaultExpiry, now, failing)
  {
    var res := Identity.UserFromContext(ctx, getUser);
    match res.result
    case Err(_) => Exchange(res.log + [Write(StatusUnauthorized)], s)
    case Ok(user) =>
      match ListActive(s, user.publicId, failing)
      case Err(NoRows) => Exchange([Write(StatusNotFound)], s)
      case Err(Failure) => Exchange([Write(StatusInternalServerError)], s)
      case Ok(tokens) => RefreshWith(fixedCheck, user, tokens, jar, s, random, defaultExpiry, now, failing)
  }

  /**
    POST /api/refresh, as written: the single token is rejected while it is still valid, so a
    refresh succeeds only for a user whose one active token has already expired.
  */
  function Refresh(ctx: Identity.Context, getUser: string -> Database.Lookup<Database.User>, jar: Middleware.Jar, s: Store,
                   random: Option<RefreshToken.Key>, defaultExpiry: int, now: int, failing: set<Op>): (e: Exchange)
    ensures !Handlers.Identified(ctx, getUser) ==>
      e.store == s && Status(e) == Some(Handlers.UnidentifiedStatus(ctx, getUser))
    ensures Status(e) == Some(StatusOK) ==>
      && Handlers.Identified(ctx, getUser)
      && var owner := Handlers.Accessing(ctx, getUser).publicId;
      && |ActiveOf(s, owner)| == 1 && !StillValid(s[Only(ActiveOf(s, owner))], now)
      && RefreshCookie in jar
      && e.store == RefreshToken.Rotate(s, jar[RefreshCookie], random, defaultExpiry, now, failing).store
  {
    RefreshFrom(false, ctx, getUser, jar, s, random, defaultExpiry, now, failing)
  }

  /**
    POST /api/refresh as evidently intended: the single token is rejected once it has expired, so
    a refresh succeeds only while the user's one active token is still valid.
  */
  function RefreshFixed(ctx: Identity.Context, getUser: string -> Database.Lookup<Database.User>, jar: Middleware.Jar, s: Store,
                        random: Option<RefreshToken.Key>, defaultExpiry: int, now: int, failing: set<Op>): (e: Exchange)
    ensures !Handlers.Identified(ctx, getUser) ==>
      e.store == s && Status(e) == Some(Handlers.UnidentifiedStatus(ctx, getUser))
    ensures Status(e) == Some(StatusOK) ==>
      && Handlers.Identified(ctx, getUser)
      && var owner := Handlers.Accessing(ctx, getUser).publicId;
      && |ActiveOf(s, owner)| == 1 && StillValid(s[Only(ActiveOf(s, owner))], now)
      && RefreshCookie in jar
      && e.store == RefreshToken.Rotate(s, jar[RefreshCookie], random, defaultExpiry, now, failing).store
  {
    RefreshFrom(true, ctx, getUser, jar, s, random, defaultExpiry, now, failing)
  }

  /**
    Were the list query to return unexpired rows only, as written the refresh endpoint could
    never answer 200: every row it lists is still valid and is rejected.
  */
  lemma RefreshNeverSucceedsOnUnexpiredRows(ctx: Identity.Context, getUser: string -> Database.Lookup<Database.User>,
                                            jar: Middleware.Jar, s: Store, random: Option<RefreshToken.Key>,
                                            defaultExpiry: int, now: int, failing: set<Op>)
    requires Handlers.Identified(ctx, getUser)
    requires forall t :: t in ActiveOf(s, Handlers.Accessing(ctx, getUser).publicId) ==> StillValid(s[t], now)
    ensures Status(Refresh(ctx, getUser, jar, s, random, defaultExpiry, now, failing)) != Some(StatusOK)
  {
    var owner := Handlers.Accessing(ctx, getUser).publicId;
    if |ActiveOf(s, owner)| == 1 {
      assert Only(ActiveOf(s, owner)) in ActiveOf(s, owner);
    }
  }

  /** As written, the valid session token of a user is revoked by the refresh request. */
  lemma RefreshRevokesValidToken(ctx: Identity.Context, getUser: string -> Database.Lookup<Database.User>, jar: Middleware.Jar,
                                 s: Store, random: Option<RefreshToken.Key>, defaultExpiry: int, now: int, t: string)
    requires Handlers.Identified(ctx, getUser)
    requires ActiveOf(s, Handlers.Accessing(ctx, getUser).publicId) == {t}
    requires StillValid(s[t], now)
    ensures var e := Refresh(ctx, getUser, jar, s, random, defaultExpiry, now, {});
      Status(e) == Some(StatusUnauthorized) && ActiveOf(e.store, Handlers.Accessing(ctx, getUser).publicId) == {}
  {
    var owner := Handlers.Accessing(ctx, getUser).publicId;
    assert Only(ActiveOf(s, owner)) == t;
    RevokeByTokenActive(s, t, now, {}, owner);
  }

  /**
    With the intended check, a user presenting their one valid refresh token gets 200, and the
    new token is then their only active one.
  */
  lemma RefreshFixedRotates(ctx: Identity.Context, getUser: string -> Database.Lookup<Database.User>, jar: Middleware.Jar, s: Store,
                            key: RefreshToken.Key, defaultExpiry: int, now: int, t: string)
    requires Handlers.Identified(ctx, getUser)
    requires ActiveOf(s, Handlers.Accessing(ctx, getUser).publicId) == {t}
    requires StillValid(s[t], now)
    requires RefreshCookie in jar && jar[RefreshCookie] == t
    requires RefreshToken.MakeRefreshToken(Some(key)).value !in s
    ensures var e := RefreshFixed(ctx, getUser, jar, s, Some(key), defaultExpiry, now, {});
      var rot := RefreshToken.Rotate(s, t, Some(key), defaultExpiry, now, {});
      Status(e) == Some(StatusOK) && rot.result.Ok?
      && ActiveOf(e.store, Handlers.Accessing(ctx, getUser).publicId) == {rot.result.value.token}
  {
    var owner := Handlers.Accessing(ctx, getUser).publicId;
    assert Only(ActiveOf(s, owner)) == t;
    RefreshToken.RotateKeepsOneActive(s, t, Some(key), defaultExpiry, now, {}, owner);
  }

  /**
    POST /api/logout: revoke all the user's active tokens and clear both cookies. The revocation
    is a many-row query, so a user without active tokens is logged out the same way; the
    not-found branch of the source (which writes 404 before the clearing cookies) is never taken.
  */
  function Logout(cfg: Middleware.Config, ctx: Identity.Context, getUser: string -> Database.Lookup<Database.User>, s: Store,
                  now: int, failing: set<Op>): (e: Exchange)
    ensures !Handlers.Identified(ctx, getUser) ==>
      e.store == s && Status(e) == Some(Handlers.UnidentifiedStatus(ctx, getUser)) && DeliveredCookies(e.log) == []
    ensures Handlers.Identified(ctx, getUser) ==>
      var rv := RevokeByOwner(s, Handlers.Accessing(ctx, getUser).publicId, now, failing);
      e.store == rv.store
      && Status(e) == Some(if rv.result.Ok? then StatusOK else StatusInternalServerError)
      && DeliveredCookies(e.log) ==
           if rv.result.Ok? then Cookies.ClearAuthCookies(Cookies.UserKind, cfg.accessMinutes, cfg.refreshDays, now)
           else []
  {
    var res := Identity.UserFromContext(ctx, getUser);
    match res.result
    case Err(_) => Exchange(res.log + [Write(StatusUnauthorized)], s)
    case Ok(user) =>
      var rv := RevokeByOwner(s, user.publicId, now, failing);
      var clear := Cookies.ClearAuthCookies(Cookies.UserKind, cfg.accessMinutes, cfg.refreshDays, now);
      match rv.result
      case Err(NoRows) => Exchange([Write(StatusNotFound)] + SetCookies(clear), s)
      case Err(Failure) => Exchange([Write(StatusInternalServerError)], s)
      case Ok(_) =>
        FirstStatusAfterCookies(clear, [Write(StatusOK)]);
        CookiesBeforeStatusDelivered(clear, [Write(StatusOK)]);
        Exchange(SetCookies(clear) + [Write(StatusOK)], rv.store)
  }

  /** A logout that answers 200 ends the user's sessions and no one else's. */
  lemma LogoutEndsSession(cfg: Middleware.Config, ctx: Identity.Context, getUser: string -> Database.Lookup<Database.User>,
                          s: Store, now: int, failing: set<Op>, other: string)
    requires Status(Logout(cfg, ctx, getUser, s, now, failing)) == Some(StatusOK)
    ensures Handlers.Identified(ctx, getUser)
    ensures var e := Logout(cfg, ctx, getUser, s, now, failing);
      var owner := Handlers.Accessing(ctx, getUser).publicId;
      ActiveOf(e.store, owner) == {}
      && (other != owner ==> ActiveOf(e.store, other) == ActiveOf(s, other))
  {
    var owner := Handlers.Accessing(ctx, getUser).publicId;
    var rv := RevokeByOwner(s, owner, now, failing);
    if other != owner {
      forall t ensures t in ActiveOf(rv.store, other) <==> t in ActiveOf(s, other) {
        if t in s && t in ActiveOf(s, owner) {
          assert rv.store[t] == Revoked(s[t], now);
        }
      }
    }
  }

  /**
    POST /api/revoke/{user_public_id}: the path length is checked first (400), then the accessing
    user (401); revoking oneself is 400 and comes before the admin check (403). Only then are
    the target's active tokens revoked (200 with an empty list when it has none).
  */
  function RevokeUser(ctx: Identity.Context, getUser: string -> Database.Lookup<Database.User>, pathValue: string,
                      publicIDLength: int, s: Store, now: int, failing: set<Op>): (e: Exchange)
    ensures StrUtils.GetPublicIDFromPathValue(pathValue, publicIDLength).Err? ==>
      e == Exchange([Write(StatusBadRequest)], s)
    ensures StrUtils.GetPublicIDFromPathValue(pathValue, publicIDLength).Ok? && !Handlers.Identified(ctx, getUser) ==>
      e.store == s && Status(e) == Some(Handlers.UnidentifiedStatus(ctx, getUser))
    ensures StrUtils.GetPublicIDFromPathValue(pathValue, publicIDLength).Ok? && Handlers.Identified(ctx, getUser) ==>
      var user := Handlers.Accessing(ctx, getUser);
      (user.publicId == pathValue ==> e == Exchange([Write(StatusBadRequest)], s))
      && (user.publicId != pathValue && !user.isAdmin ==> e == Exchange([Write(StatusForbidden)], s))
      && (user.publicId != pathValue && user.isAdmin ==>
            var rv := RevokeByOwner(s, pathValue, now, failing);
            e.store == rv.store && Status(e) == Some(if rv.result.Ok? then StatusOK else StatusInternalServerError))
  {
    match StrUtils.GetPublicIDFromPathValue(pathValue, publicIDLength)
    case Err(_) => Exchange([Write(StatusBadRequest)], s)
    case Ok(pid) =>
      var res := Identity.UserFromContext(ctx, getUser);
      match res.result
      case Err(_) => Exchange(res.log + [Write(StatusUnauthorized)], s)
      case Ok(user) =>
        if user.publicId == pid then Exchange([Write(StatusBadRequest)], s)
        else if !user.isAdmin then Exchange([Write(StatusForbidden)], s)
        else
          var rv := RevokeByOwner(s, pid, now, failing);
          match rv.result
          case Err(NoRows) => Exchange([Write(StatusNotFound)], s)
          case Err(Failure) => Exchange([Write(StatusInternalServerError)], s)
          case Ok(_) => Exchange([Write(StatusOK)], rv.store)
  }

  /** A revocation by user touches only the target's rows: every other owner keeps their sessions. */
  lemma RevokeUserLeavesOthers(ctx: Identity.Context, getUser: string -> Database.Lookup<Database.User>, pathValue: string,
                               publicIDLength: int, s: Store, now: int, failing: set<Op>, other: string)
    requires other != pathValue
    ensures ActiveOf(RevokeUser(ctx, getUser, pathValue, publicIDLength, s, now, failing).store, other) == ActiveOf(s, other)
  {
    var e := RevokeUser(ctx, getUser, pathValue, publicIDLength, s, now, failing);
    var rv := RevokeByOwner(s, pathValue, now, failing);
    if e.store != s {
      assert e.store == rv.store && rv.result.Ok?;
      forall t ensures t in ActiveOf(e.store, other) <==> t in ActiveOf(s, other) {
        if t in s && t in ActiveOf(s, pathValue) {
          assert e.store[t] == Revoked(s[t], now);
        }
      }
    }
  }

  /** POST /api/revoke: an admin revokes every active token (200 with an empty list when there is none). */
  function RevokeAllTokens(ctx: Identity.Context, getUser: string -> Database.Lookup<Database.User>, s: Store, now: int,
                           failing: set<Op>): (e: Exchange)
    ensures !Handlers.Identified(ctx, getUser) ==>
      e.store == s && Status(e) == Some(Handlers.UnidentifiedStatus(ctx, getUser))
    ensures Handlers.Identified(ctx, getUser) && !Handlers.Accessing(ctx, getUser).isAdmin ==>
      e == Exchange([Write(StatusForbidden)], s)
    ensures Handlers.Identified(ctx, getUser) && Handlers.Accessing(ctx, getUser).isAdmin ==>
      var rv := RevokeAll(s, now, failing);
      e.store == rv.store && Status(e) == Some(if rv.result.Ok? then StatusOK else StatusInternalServerError)
  {
    var res := Identity.UserFromContext(ctx, getUser);
    match res.result
    case Err(_) => Exchange(res.log + [Write(StatusUnauthorized)], s)
    case Ok(user) =>
      if !user.isAdmin then Exchange([Write(StatusForbidden)], s)
      else
        var rv := RevokeAll(s, now, failing);
        match rv.result
        case Err(NoRows) => Exchange([Write(StatusNotFound)], s)
        case Err(Failure) => Exchange([Write(StatusInternalServerError)], s)
        case Ok(_) => Exchange([Write(StatusOK)], rv.store)
  }

  /**
    Only an identified admin changes the table through POST /api/revoke, and a 200 leaves no
    owner with an active token.
  */
  lemma RevokeAllTokensEndsEverySession(ctx: Identity.Context, getUser: string -> Database.Lookup<Database.User>, s: Store,
                                        now: int, failing: set<Op>, owner: string)
    ensures var e := RevokeAllTokens(ctx, getUser, s, now, failing);
      (e.store != s || Status(e) == Some(StatusOK)) ==> Handlers.Identified(ctx, getUser) && Handlers.Accessing(ctx, getUser).isAdmin
    ensures var e := RevokeAllTokens(ctx, getUser, s, now, failing);
      Status(e) == Some(StatusOK) ==> ActiveOf(e.store, owner) == {}
  {
    var e := RevokeAllTokens(ctx, getUser, s, now, failing);
    if Status(e) == Some(StatusOK) {
      RevokeAllEndsEverySession(s, now, failing, owner);
    }
  }

  /** Once an owner's tokens are revoked, the development listing for that owner answers 404. */
  lemma RevokedOwnerNotListed(s: Store, owner: string, now: int, failing: set<Op>)
    requires owner != ""
    requires RevokeByOwner(s, owner, now, failing).result.Ok?
    ensures FirstStatus(GetRefreshTokens(DevEnv, owner, RevokeByOwner(s, owner, now, failing).store, failing)) == Some(StatusNotFound)
  {
  }
}
