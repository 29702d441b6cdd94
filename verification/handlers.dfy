/**
  What the request handlers share. A handler's reply is its response log together with the
  queries it issued, in order; a query's outcome is an input of the handler. Most handlers begin
  by resolving the accessing user with `UserFromContext`, which writes its own error status
  before the handler adds another (ignored) one.
*/
module Handlers {
  import opened Wrappers
  import opened Http
  import opened Database
  import Identity
  import Cookies

  datatype Reply = Reply(log: Log, queries: seq<Query>)

  /** The status the client receives. */
  function Status(r: Reply): (status: Option<int>) {
    FirstStatus(r.log)
  }

  /** A reply that writes one status. */
  function Answer(status: int, queries: seq<Query>): (r: Reply)
    ensures Status(r) == Some(status) && r.queries == queries
  {
    Reply([Write(status)], queries)
  }

  /** The status a query outcome leads to: `success` on a row, 404 on no rows, 500 otherwise. */
  function OutcomeStatus<T>(outcome: Lookup<T>, success: int): (status: int)
    ensures outcome.Found? ==> status == success
    ensures outcome.NoRows? ==> status == StatusNotFound
    ensures outcome.DbError? ==> status == StatusInternalServerError
  {
    match outcome
    case Found(_) => success
    case NoRows => StatusNotFound
    case DbError => StatusInternalServerError
  }

  const UserKey: string := Cookies.UserIDContextKey

  /** The request carries a user identity that names an existing user. */
  predicate Identified(ctx: Identity.Context, getUser: string -> Lookup<User>) {
    UserKey in ctx && getUser(ctx[UserKey]).Found?
  }

  /** The accessing user. */
  function Accessing(ctx: Identity.Context, getUser: string -> Lookup<User>): User
    requires Identified(ctx, getUser)
  {
    getUser(ctx[UserKey]).value
  }

  /**
    The status a failed user resolution makes the client see: 401 without an identity, 404 for
    an identity naming no user, 500 when the lookup fails.
  */
  function UnidentifiedStatus(ctx: Identity.Context, getUser: string -> Lookup<User>): int {
    if UserKey !in ctx then StatusUnauthorized
    else if getUser(ctx[UserKey]).NoRows? then StatusNotFound
    else StatusInternalServerError
  }

  /** The user lookup resolution issues: one, exactly when the context holds an identity. */
  function UserLookup(ctx: Identity.Context): seq<Query> {
    if UserKey in ctx then [GetUserByPublicID(ctx[UserKey])] else []
  }

  /** A sequence of queries that changes no table. */
  predicate ReadOnly(qs: seq<Query>) {
    forall i :: 0 <= i < |qs| ==> !Writes(qs[i])
  }

  datatype Gate = Admit(user: User) | Deny(log: Log)

  /**
    `UserFromContext`, followed on failure by the handler's own error write `own` (None when the
    handler returns without writing). Either way the client sees the resolver's status.
  */
  function Authenticate(ctx: Identity.Context, getUser: string -> Lookup<User>, own: Option<int>): (g: Gate)
    ensures g.Admit? <==> Identified(ctx, getUser)
    ensures g.Admit? ==> g.user == Accessing(ctx, getUser)
    ensures g.Deny? ==> FirstStatus(g.log) == Some(UnidentifiedStatus(ctx, getUser))
  {
    var res := Identity.UserFromContext(ctx, getUser);
    match res.result
    case Ok(u) => Admit(u)
    case Err(_) => Deny(res.log + (if own.Some? then [Write(own.value)] else []))
  }
}
