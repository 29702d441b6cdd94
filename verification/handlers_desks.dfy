/**
  The desk endpoints (api/handler_desks.go). Each handler applies its gates in a fixed order:
  identity (the resolver's status), then the active and admin flags (403), then the path's
  public-ID length (400) and the body (400), and only then the query.
*/
module DeskHandlers {
  import opened Wrappers
  import opened Http
  import opened Database
  import opened Handlers
  import Identity
  import StrUtils

  datatype DesksPostRequest = DesksPostRequest(name: string, description: NullString)

  datatype DesksPutRequest = DesksPutRequest(name: string, description: NullString, isActive: bool)

  /**
    POST /api/desks: identity, then active (403), then admin (403), then the body; the desk is
    created under the generated public ID `pid`.
  */
  function PostDesks(ctx: Identity.Context, getUser: string -> Lookup<User>, body: Option<DesksPostRequest>,
                     pid: string, created: Lookup<Desk>): (r: Reply)
    ensures !Identified(ctx, getUser) ==>
      Status(r) == Some(UnidentifiedStatus(ctx, getUser)) && r.queries == UserLookup(ctx)
    ensures Identified(ctx, getUser) && !(Accessing(ctx, getUser).isActive && Accessing(ctx, getUser).isAdmin) ==>
      Status(r) == Some(StatusForbidden) && r.queries == UserLookup(ctx)
    ensures Identified(ctx, getUser) && Accessing(ctx, getUser).isActive && Accessing(ctx, getUser).isAdmin ==>
      (body.None? ==> Status(r) == Some(StatusBadRequest) && r.queries == UserLookup(ctx))
      && (body.Some? ==>
            r.queries == UserLookup(ctx) + [CreateDesks(pid, body.value.name, body.value.description)]
            && Status(r) == Some(if created.Found? then StatusCreated else StatusInternalServerError))
  {
    match Authenticate(ctx, getUser, Some(StatusUnauthorized))
    case Deny(log) => Reply(log, UserLookup(ctx))
    case Admit(user) =>
      var qs := UserLookup(ctx);
      if !user.isActive then Answer(StatusForbidden, qs)
      else if !user.isAdmin then Answer(StatusForbidden, qs)
      else
        match body
        case None => Answer(StatusBadRequest, qs)
        case Some(req) =>
          Answer(if created.Found? then StatusCreated else StatusInternalServerError,
                 qs + [CreateDesks(pid, req.name, req.description)])
  }

  /**
    PUT /api/desks/{desk_public_id}: identity, admin (403), path length (400), body (400), then
    the update's 404/500/200. The active flag is not checked.
  */
  function PutDesksByPublicID(ctx: Identity.Context, getUser: string -> Lookup<User>, pathValue: string,
                              publicIDLength: int, body: Option<DesksPutRequest>, updated: Lookup<Desk>): (r: Reply)
    ensures !Identified(ctx, getUser) ==>
      Status(r) == Some(UnidentifiedStatus(ctx, getUser)) && r.queries == UserLookup(ctx)
    ensures Identified(ctx, getUser) && !Accessing(ctx, getUser).isAdmin ==>
      Status(r) == Some(StatusForbidden) && r.queries == UserLookup(ctx)
    ensures Identified(ctx, getUser) && Accessing(ctx, getUser).isAdmin
            && StrUtils.GetPublicIDFromPathValue(pathValue, publicIDLength).Err? ==>
      Status(r) == Some(StatusBadRequest) && r.queries == UserLookup(ctx)
    ensures Identified(ctx, getUser) && Accessing(ctx, getUser).isAdmin
            && StrUtils.GetPublicIDFromPathValue(pathValue, publicIDLength).Ok? ==>
      (body.None? ==> Status(r) == Some(StatusBadRequest) && r.queries == UserLookup(ctx))
      && (body.Some? ==>
            r.queries == UserLookup(ctx) + [SetDesksByPublicID(pathValue, body.value.name, body.value.description, body.value.isActive)]
            && Status(r) == Some(OutcomeStatus(updated, StatusOK)))
  {
    match Authenticate(ctx, getUser, Some(StatusUnauthorized))
    case Deny(log) => Reply(log, UserLookup(ctx))
    case Admit(user) =>
      var qs := UserLookup(ctx);
      if !user.isAdmin then Answer(StatusForbidden, qs)
      else
        match StrUtils.GetPublicIDFromPathValue(pathValue, publicIDLength)
        case Err(_) => Answer(StatusBadRequest, qs)
        case Ok(dpid) =>
          match body
          case None => Answer(StatusBadRequest, qs)
          case Some(req) =>
            Answer(OutcomeStatus(updated, StatusOK), qs + [SetDesksByPublicID(dpid, req.name, req.description, req.isActive)])
  }

  /** An inactive admin may edit a desk, though not create one. */
  lemma InactiveAdminEditsDesks(ctx: Identity.Context, getUser: string -> Lookup<User>, pathValue: string,
                                publicIDLength: int, put: DesksPutRequest, post: DesksPostRequest, pid: string,
                                updated: Lookup<Desk>, created: Lookup<Desk>)
    requires Identified(ctx, getUser) && Accessing(ctx, getUser).isAdmin && !Accessing(ctx, getUser).isActive
    requires StrUtils.GetPublicIDFromPathValue(pathValue, publicIDLength).Ok? && updated.Found? && created.Found?
    ensures Status(PutDesksByPublicID(ctx, getUser, pathValue, publicIDLength, Some(put), updated)) == Some(StatusOK)
    ensures Status(PostDesks(ctx, getUser, Some(post), pid, created)) == Some(StatusForbidden)
  {
  }

  /** GET /api/desks: identity, then active (403), then the list's 404/500/200. */
  function GetDesks(ctx: Identity.Context, getUser: string -> Lookup<User>, desks: Lookup<seq<Desk>>): (r: Reply)
    ensures !Identified(ctx, getUser) ==>
      Status(r) == Some(UnidentifiedStatus(ctx, getUser)) && r.queries == UserLookup(ctx)
    ensures Identified(ctx, getUser) && !Accessing(ctx, getUser).isActive ==>
      Status(r) == Some(StatusForbidden) && r.queries == UserLookup(ctx)
    ensures Identified(ctx, getUser) && Accessing(ctx, getUser).isActive ==>
      Status(r) == Some(OutcomeStatus(desks, StatusOK)) && r.queries == UserLookup(ctx) + [Database.GetDesks]
  {
    match Authenticate(ctx, getUser, Some(StatusUnauthorized))
    case Deny(log) => Reply(log, UserLookup(ctx))
    case Admit(user) =>
      if !user.isActive then Answer(StatusForbidden, UserLookup(ctx))
      else Answer(OutcomeStatus(desks, StatusOK), UserLookup(ctx) + [Database.GetDesks])
  }

  /** GET /api/desks/{desk_public_id}: no authentication; path length (400), then the lookup. */
  function GetDesksByPublicID(pathValue: string, publicIDLength: int, desk: Lookup<Desk>): (r: Reply)
    ensures StrUtils.GetPublicIDFromPathValue(pathValue, publicIDLength).Err? ==>
      Status(r) == Some(StatusBadRequest) && r.queries == []
    ensures StrUtils.GetPublicIDFromPathValue(pathValue, publicIDLength).Ok? ==>
      Status(r) == Some(OutcomeStatus(desk, StatusOK)) && r.queries == [Database.GetDesksByPublicID(pathValue)]
  {
    match StrUtils.GetPublicIDFromPathValue(pathValue, publicIDLength)
    case Err(_) => Answer(StatusBadRequest, [])
    case Ok(dpid) => Answer(OutcomeStatus(desk, StatusOK), [Database.GetDesksByPublicID(dpid)])
  }

  /** Only an admin makes the desk table change; creating also needs the admin to be active. */
  lemma DeskWritesNeedAdmin(ctx: Identity.Context, getUser: string -> Lookup<User>, post: Option<DesksPostRequest>,
                            pid: string, created: Lookup<Desk>, pathValue: string, publicIDLength: int,
                            put: Option<DesksPutRequest>, updated: Lookup<Desk>)
    ensures !ReadOnly(PostDesks(ctx, getUser, post, pid, created).queries) ==>
      Identified(ctx, getUser) && Accessing(ctx, getUser).isAdmin && Accessing(ctx, getUser).isActive
    ensures !ReadOnly(PutDesksByPublicID(ctx, getUser, pathValue, publicIDLength, put, updated).queries) ==>
      Identified(ctx, getUser) && Accessing(ctx, getUser).isAdmin
  {
  }

  /** The GET handlers only read. */
  lemma DeskReadsNeverWrite(ctx: Identity.Context, getUser: string -> Lookup<User>, desks: Lookup<seq<Desk>>,
                            pathValue: string, publicIDLength: int, desk: Lookup<Desk>)
    ensures ReadOnly(GetDesks(ctx, getUser, desks).queries)
    ensures ReadOnly(GetDesksByPublicID(pathValue, publicIDLength, desk).queries)
  {
  }
}
