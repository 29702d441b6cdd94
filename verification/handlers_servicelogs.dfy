/**
  The service-log endpoints (api/handler_servicelogs.go): a shared decode-query-answer step and
  the gates in front of it.
*/
module ServiceLogHandlers {
  import opened Wrappers
  import opened Http
  import opened Database
  import opened Handlers
  import Identity
  import StrUtils

  datatype ServicelogsPostRequest = ServicelogsPostRequest(visitorPublicId: string, userPublicId: string, deskPublicId: string)

  datatype ServicelogsPutRequest = ServicelogsPutRequest(
    visitorPublicId: string, userPublicId: string, deskPublicId: string, isActive: bool)

  /**
    handleServiceLogOperation: a body that does not decode is 400 and no query runs; otherwise
    the query built from the body runs, and its row answers 201 for "POST" and 200 for any other
    operation, no rows 404, and an error 500.
  */
  function HandleServiceLogOperation<T>(operation: string, body: Option<T>, query: T -> Query,
                                        outcome: Lookup<ServiceLog>): (r: Reply)
    ensures body.None? ==> Status(r) == Some(StatusBadRequest) && r.queries == []
    ensures body.Some? ==> r.queries == [query(body.value)]
    ensures body.Some? && outcome.Found? ==>
      Status(r) == Some(if operation == "POST" then StatusCreated else StatusOK)
    ensures body.Some? && outcome.NoRows? ==> Status(r) == Some(StatusNotFound)
    ensures body.Some? && outcome.DbError? ==> Status(r) == Some(StatusInternalServerError)
  {
    match body
    case None => Answer(StatusBadRequest, [])
    case Some(req) =>
      var success := if operation == "POST" then StatusCreated else StatusOK;
      Answer(OutcomeStatus(outcome, success), [query(req)])
  }

  /** The requests that pass the service-log gates: an identified, active user. */
  predicate ActiveUser(ctx: Identity.Context, getUser: string -> Lookup<User>) {
    Identified(ctx, getUser) && Accessing(ctx, getUser).isActive
  }

  /** POST /api/servicelogs: identity, active (403), then the shared step creating the log. */
  function PostServicelogs(ctx: Identity.Context, getUser: string -> Lookup<User>,
                           body: Option<ServicelogsPostRequest>, pid: string, outcome: Lookup<ServiceLog>): (r: Reply)
    ensures !Identified(ctx, getUser) ==>
      Status(r) == Some(UnidentifiedStatus(ctx, getUser)) && r.queries == UserLookup(ctx)
    ensures Identified(ctx, getUser) && !Accessing(ctx, getUser).isActive ==>
      Status(r) == Some(StatusForbidden) && r.queries == UserLookup(ctx)
    ensures |r.queries| > |UserLookup(ctx)| <==> ActiveUser(ctx, getUser) && body.Some?
    ensures ActiveUser(ctx, getUser) && body.Some? ==>
      var req := body.value;
      r.queries == UserLookup(ctx) + [CreateServiceLogs(pid, req.userPublicId, req.visitorPublicId, req.deskPublicId)]
      && Status(r) == Some(OutcomeStatus(outcome, StatusCreated))
  {
    match Authenticate(ctx, getUser, Some(StatusUnauthorized))
    case Deny(log) => Reply(log, UserLookup(ctx))
    case Admit(user) =>
      if !user.isActive then Answer(StatusForbidden, UserLookup(ctx))
      else
        var step := HandleServiceLogOperation("POST", body,
          (req: ServicelogsPostRequest) => CreateServiceLogs(pid, req.userPublicId, req.visitorPublicId, req.deskPublicId),
          outcome);
        Reply(step.log, UserLookup(ctx) + step.queries)
  }

  /**
    PUT /api/servicelogs/{servicelog_public_id}: identity, active (403), then the path length
    (400) before the body is read, then the shared step updating the log.
  */
  function PutServicelogsByID(ctx: Identity.Context, getUser: string -> Lookup<User>, pathValue: string,
                              publicIDLength: int, body: Option<ServicelogsPutRequest>,
                              outcome: Lookup<ServiceLog>): (r: Reply)
    ensures !Identified(ctx, getUser) ==>
      Status(r) == Some(UnidentifiedStatus(ctx, getUser)) && r.queries == UserLookup(ctx)
    ensures Identified(ctx, getUser) && !Accessing(ctx, getUser).isActive ==>
      Status(r) == Some(StatusForbidden) && r.queries == UserLookup(ctx)
    ensures ActiveUser(ctx, getUser) && StrUtils.GetPublicIDFromPathValue(pathValue, publicIDLength).Err? ==>
      Status(r) == Some(StatusBadRequest) && r.queries == UserLookup(ctx)
    ensures ActiveUser(ctx, getUser) && StrUtils.GetPublicIDFromPathValue(pathValue, publicIDLength).Ok? ==>
      (body.None? ==> Status(r) == Some(StatusBadRequest) && r.queries == UserLookup(ctx))
      && (body.Some? ==>
            var req := body.value;
            r.queries == UserLookup(ctx) + [SetServiceLogsByPublicID(pathValue, req.visitorPublicId, req.userPublicId,
                                                                      req.deskPublicId, req.isActive)]
            && Status(r) == Some(OutcomeStatus(outcome, StatusOK)))
  {
    match Authenticate(ctx, getUser, Some(StatusUnauthorized))
    case Deny(log) => Reply(log, UserLookup(ctx))
    case Admit(user) =>
      if !user.isActive then Answer(StatusForbidden, UserLookup(ctx))
      else
        match StrUtils.GetPublicIDFromPathValue(pathValue, publicIDLength)
        case Err(_) => Answer(StatusBadRequest, UserLookup(ctx))
        case Ok(slpid) =>
          var step := HandleServiceLogOperation("PUT", body,
            (req: ServicelogsPutRequest) =>
              SetServiceLogsByPublicID(slpid, req.visitorPublicId, req.userPublicId, req.deskPublicId, req.isActive),
            outcome);
          Reply(step.log, UserLookup(ctx) + step.queries)
  }

  /** GET /api/servicelogs: the handler is empty, so it answers 200 with nothing and queries nothing. */
  function GetServicelogs(): (r: Reply)
    ensures Status(r) == Some(StatusOK) && r.queries == []
  {
    Reply([], [])
  }

  /** GET /api/servicelogs/{servicelog_public_id}: no authentication; path length, then the lookup. */
  function GetServicelogsByPublicID(pathValue: string, publicIDLength: int, outcome: Lookup<ServiceLog>): (r: Reply)
    ensures StrUtils.GetPublicIDFromPathValue(pathValue, publicIDLength).Err? ==>
      Status(r) == Some(StatusBadRequest) && r.queries == []
    ensures StrUtils.GetPublicIDFromPathValue(pathValue, publicIDLength).Ok? ==>
      Status(r) == Some(OutcomeStatus(outcome, StatusOK)) && r.queries == [GetServiceLogsByPublicID(pathValue)]
  {
    match StrUtils.GetPublicIDFromPathValue(pathValue, publicIDLength)
    case Err(_) => Answer(StatusBadRequest, [])
    case Ok(slpid) => Answer(OutcomeStatus(outcome, StatusOK), [GetServiceLogsByPublicID(slpid)])
  }

  /** Only an identified, active user makes the service-log table change. */
  lemma ServiceLogWritesNeedActiveUser(ctx: Identity.Context, getUser: string -> Lookup<User>,
                                       post: Option<ServicelogsPostRequest>, pid: string, pathValue: string,
                                       publicIDLength: int, put: Option<ServicelogsPutRequest>,
                                       outcome: Lookup<ServiceLog>)
    ensures !ReadOnly(PostServicelogs(ctx, getUser, post, pid, outcome).queries) ==> ActiveUser(ctx, getUser)
    ensures !ReadOnly(PutServicelogsByID(ctx, getUser, pathValue, publicIDLength, put, outcome).queries) ==>
      ActiveUser(ctx, getUser) && StrUtils.GetPublicIDFromPathValue(pathValue, publicIDLength).Ok?
  {
  }

  /** The GET handlers only read. */
  lemma ServiceLogReadsNeverWrite(pathValue: string, publicIDLength: int, outcome: Lookup<ServiceLog>)
    ensures ReadOnly(GetServicelogs().queries)
    ensures ReadOnly(GetServicelogsByPublicID(pathValue, publicIDLength, outcome).queries)
  {
  }
}
