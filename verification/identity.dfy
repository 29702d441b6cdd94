/**
  Identity resolution: who is making the request, as the handlers ask it.
  - `AuthFromContext` (auth/fromcontext.go) reads an identifier string the middleware put in the
    request context and looks it up; `UserFromContext` and `VisitorFromContext` fix the key.
  - `AuthFromContextUuid` (auth/fromcookie.go) is the other variant: it first parses the
    identifier as a UUID and answers 400 when that fails.
  - `AdminFromHeader` (auth/fromheader.go) checks a Bearer access token for an admin user.
  Every lookup is an input function from identifier to query outcome; `queried` records which
  identifier, if any, was looked up.
*/
module Identity {
  import opened Wrappers
  import opened Http
  import opened Database
  import Uuid
  import Durations
  import Jwt
  import Cookies

  /** The string values in the request context, by key; a missing or non-string value is absent. */
  type Context = map<string, string>

  datatype ResolveError =
    | NoIDInContext   // ErrNoIDInContext
    | InvalidId       // uuid.Parse failed
    | NotFound        // sql.ErrNoRows from the lookup
    | QueryFailed     // any other lookup error

  datatype Resolution<T> = Resolution(result: Result<T, ResolveError>, queried: Option<string>, log: Log)

  /** The status a resolution failure writes; a success writes nothing. */
  function StatusOf(e: ResolveError): int {
    match e
    case NoIDInContext => StatusUnauthorized
    case InvalidId => StatusBadRequest
    case NotFound => StatusNotFound
    case QueryFailed => StatusInternalServerError
  }

  /** The lookup's outcome as a resolution of identifier `id`. */
  function FromLookup<T>(id: string, found: Lookup<T>): (r: Resolution<T>)
    ensures r.queried == Some(id)
    ensures r.result.Ok? <==> found.Found?
    ensures r.result.Ok? ==> r.result.value == found.value
    ensures r.result == Err(NotFound) <==> found.NoRows?
    ensures r.result == Err(QueryFailed) <==> found.DbError?
  {
    match found
    case Found(v) => Resolution(Ok(v), Some(id), [])
    case NoRows => Resolution(Err(NotFound), Some(id), [Write(StatusOf(NotFound))])
    case DbError => Resolution(Err(QueryFailed), Some(id), [Write(StatusOf(QueryFailed))])
  }

  /**
    authFromContext (public-ID variant): an absent value is 401 with no lookup; any string,
    the empty one included, is looked up as it is.
  */
  function AuthFromContext<T>(ctx: Context, key: string, getById: string -> Lookup<T>): (r: Resolution<T>)
    ensures r.result == Err(NoIDInContext) <==> key !in ctx
    ensures r.result != Err(InvalidId)
    ensures key !in ctx ==> r.queried.None?
    ensures key in ctx ==> r.queried == Some(ctx[key])
    ensures key in ctx ==> (r.result.Ok? <==> getById(ctx[key]).Found?)
    ensures r.result.Ok? ==> r.result.value == getById(ctx[key]).value
    ensures r.log == match r.result case Ok(_) => [] case Err(e) => [Write(StatusOf(e))]
  {
    if key !in ctx then Resolution(Err(NoIDInContext), None, [Write(StatusOf(NoIDInContext))])
    else FromLookup(ctx[key], getById(ctx[key]))
  }

  /**
    UserFromContext: the user key, looked up by public ID. Admitted (nothing written) exactly when
    the key is present and the lookup finds the user; otherwise one status: 401 without the key,
    404 when no row matches, 500 when the query fails.
  */
  function UserFromContext(ctx: Context, getUser: string -> Lookup<User>): (r: Resolution<User>)
    ensures r.result.Ok? <==> Cookies.UserIDContextKey in ctx && getUser(ctx[Cookies.UserIDContextKey]).Found?
    ensures r.result.Ok? ==> r.result.value == getUser(ctx[Cookies.UserIDContextKey]).value && r.log == []
    ensures Cookies.UserIDContextKey !in ctx ==> r.queried.None? && r.log == [Write(StatusUnauthorized)]
    ensures Cookies.UserIDContextKey in ctx ==> r.queried == Some(ctx[Cookies.UserIDContextKey])
    ensures Cookies.UserIDContextKey in ctx && getUser(ctx[Cookies.UserIDContextKey]).NoRows? ==>
      r.result == Err(NotFound) && r.log == [Write(StatusNotFound)]
    ensures Cookies.UserIDContextKey in ctx && getUser(ctx[Cookies.UserIDContextKey]).DbError? ==>
      r.result == Err(QueryFailed) && r.log == [Write(StatusInternalServerError)]
  {
    AuthFromContext(ctx, Cookies.UserIDContextKey, getUser)
  }

  /** VisitorFromContext: the visitor key, looked up by public ID, with the same outcomes. */
  function VisitorFromContext(ctx: Context, getVisitor: string -> Lookup<Visitor>): (r: Resolution<Visitor>)
    ensures r.result.Ok? <==> Cookies.VisitorIDContextKey in ctx && getVisitor(ctx[Cookies.VisitorIDContextKey]).Found?
    ensures r.result.Ok? ==> r.result.value == getVisitor(ctx[Cookies.VisitorIDContextKey]).value && r.log == []
    ensures Cookies.VisitorIDContextKey !in ctx ==> r.queried.None? && r.log == [Write(StatusUnauthorized)]
    ensures Cookies.VisitorIDContextKey in ctx ==> r.queried == Some(ctx[Cookies.VisitorIDContextKey])
    ensures Cookies.VisitorIDContextKey in ctx && getVisitor(ctx[Cookies.VisitorIDContextKey]).NoRows? ==>
      r.result == Err(NotFound) && r.log == [Write(StatusNotFound)]
    ensures Cookies.VisitorIDContextKey in ctx && getVisitor(ctx[Cookies.VisitorIDContextKey]).DbError? ==>
      r.result == Err(QueryFailed) && r.log == [Write(StatusInternalServerError)]
  {
    AuthFromContext(ctx, Cookies.VisitorIDContextKey, getVisitor)
  }

  /** The resolvers read only their own key: contexts that agree on it resolve alike. */
  lemma ReadsOnlyItsKey<T>(a: Context, b: Context, key: string, getById: string -> Lookup<T>)
    requires (key in a <==> key in b) && (key in a ==> a[key] == b[key])
    ensures AuthFromContext(a, key, getById) == AuthFromContext(b, key, getById)
  {
  }

  /** A user identity in the context is invisible to the visitor resolver, and vice versa. */
  lemma UserKeyInvisibleToVisitor(ctx: Context, id: string, getVisitor: string -> Lookup<Visitor>)
    ensures VisitorFromContext(ctx[Cookies.UserIDContextKey := id], getVisitor) == VisitorFromContext(ctx, getVisitor)
  {
    Cookies.KeysDistinct();
    var ctx' := ctx[Cookies.UserIDContextKey := id];
    assert (Cookies.VisitorIDContextKey in ctx' <==> Cookies.VisitorIDContextKey in ctx);
    ReadsOnlyItsKey(ctx', ctx, Cookies.VisitorIDContextKey, getVisitor);
  }

  /** authFromContext (UUID variant): the value must parse as a UUID before any lookup. */
  function AuthFromContextUuid<T>(ctx: Context, key: string, getById: string -> Lookup<T>): (r: Resolution<T>)
    ensures r.result == Err(NoIDInContext) <==> key !in ctx
    ensures r.result == Err(InvalidId) <==> key in ctx && Uuid.Parse(ctx[key]).None?
    ensures r.queried.Some? <==> key in ctx && Uuid.Parse(ctx[key]).Some?
    ensures r.queried.Some? ==>
      r.queried.value == Uuid.Format(Uuid.Parse(ctx[key]).value)
      && (r.result.Ok? <==> getById(r.queried.value).Found?)
    ensures r.log == match r.result case Ok(_) => [] case Err(e) => [Write(StatusOf(e))]
  {
    if key !in ctx then Resolution(Err(NoIDInContext), None, [Write(StatusOf(NoIDInContext))])
    else
      match Uuid.Parse(ctx[key])
      case None => Resolution(Err(InvalidId), None, [Write(StatusOf(InvalidId))])
      case Some(h) =>
        var id := Uuid.Format(h);
        FromLookup(id, getById(id))
  }

  /** On canonical UUID text the two variants agree: the parse step changes nothing. */
  lemma VariantsAgreeOnCanonical<T>(ctx: Context, key: string, getById: string -> Lookup<T>)
    requires key in ctx && Uuid.IsCanonical(ctx[key])
    ensures AuthFromContextUuid(ctx, key, getById) == AuthFromContext(ctx, key, getById)
  {
    Uuid.CanonicalRoundTrip(ctx[key]);
  }

  /**
    AdminFromHeader: admits (writes nothing) only a request whose Bearer token validates and names
    an existing admin user; every refusal writes exactly one status. A non-admin gets 401.
  */
  function AdminFromHeader(authorization: string, secret: string, now: int,
                           getUser: string -> Lookup<User>): (log: Log)
    ensures |log| <= 1
    ensures log == [] <==>
      authorization != ""
      && var v := Jwt.ValidateJWT(Jwt.GetBearerToken(authorization).value, secret, now);
      v.err.None? && getUser(v.id).Found? && getUser(v.id).value.isAdmin
    ensures authorization == "" ==> log == [Write(StatusUnauthorized)]
    ensures authorization != "" ==>
      var v := Jwt.ValidateJWT(Jwt.GetBearerToken(authorization).value, secret, now);
      (v.err.Some? ==> log == [Write(StatusUnauthorized)])
      && (v.err.None? && getUser(v.id).NoRows? ==> log == [Write(StatusNotFound)])
      && (v.err.None? && getUser(v.id).DbError? ==> log == [Write(StatusInternalServerError)])
      && (v.err.None? && getUser(v.id).Found? && !getUser(v.id).value.isAdmin ==> log == [Write(StatusUnauthorized)])
  {
    match Jwt.GetBearerToken(authorization)
    case Err(_) => [Write(StatusUnauthorized)]
    case Ok(token) =>
      var v := Jwt.ValidateJWT(token, secret, now);
      if v.err.Some? then [Write(StatusUnauthorized)]
      else
        match getUser(v.id)
        case NoRows => [Write(StatusNotFound)]
        case DbError => [Write(StatusInternalServerError)]
        case Found(u) => if !u.isAdmin then [Write(StatusUnauthorized)] else []
  }

  /** An admin's freshly made access token, sent as the client sends it, is admitted. */
  lemma AdminTokenAdmitted(id: string, secret: string, minutes: int, now: int, later: int,
                           getUser: string -> Lookup<User>)
    requires Uuid.IsCanonical(id)
    requires now <= later <= now + Durations.MinuteOffset(minutes)
    requires getUser(id).Found? && getUser(id).value.isAdmin
    ensures AdminFromHeader("Bearer " + Jwt.MakeJWT(id, Cookies.UserKind, secret, minutes, now), secret, later, getUser) == []
  {
    Jwt.BearerRoundTrip(Jwt.MakeJWT(id, Cookies.UserKind, secret, minutes, now));
    Jwt.ValidateMadeToken(id, Cookies.UserKind, secret, minutes, now, later);
  }
}
