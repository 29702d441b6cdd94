/**
  The visitor endpoints (api/handler_visitors.go): registering a visitor, editing one, listing
  them by query parameters, and reading one by public ID under the visitor-or-user access rule.
*/
module VisitorHandlers {
  import opened Wrappers
  import opened Http
  import opened Database
  import opened Handlers
  import Identity
  import Cookies
  import StrUtils
  import Decimal

  datatype VisitorsPostRequest = VisitorsPostRequest(name: string, purposePublicId: string)

  datatype VisitorsPutRequest = VisitorsPutRequest(publicId: string, name: string, purposePublicId: string, status: int)

  /**
    POST /api/visitors (no authentication): the purpose must exist (404), the ticket counter is
    advanced, and the visitor is created under the generated public ID `pid`. The name is stored
    as a present value even when it is empty.
  */
  function PostVisitors(body: Option<VisitorsPostRequest>, purpose: Lookup<Purpose>, counter: Lookup<int>,
                        pid: string, created: Lookup<Visitor>): (r: Reply)
    ensures body.None? ==> Status(r) == Some(StatusBadRequest) && r.queries == []
    ensures body.Some? ==> |r.queries| >= 1 && r.queries[0] == GetPurposesByPublicID(body.value.purposePublicId)
    ensures body.Some? && !purpose.Found? ==>
      Status(r) == Some(OutcomeStatus(purpose, StatusOK)) && |r.queries| == 1
    ensures body.Some? && purpose.Found? && !counter.Found? ==>
      Status(r) == Some(StatusInternalServerError) && r.queries[1..] == [UpdateTicketCounter]
    ensures |r.queries| == 3 <==> body.Some? && purpose.Found? && counter.Found?
    ensures |r.queries| == 3 ==>
      r.queries[1..] == [UpdateTicketCounter,
                         CreateVisitor(pid, Database.NullString(body.value.name, true),
                                       purpose.value.publicId, counter.value)]
      && Status(r) == Some(if created.Found? then StatusCreated else StatusInternalServerError)
  {
    match body
    case None => Answer(StatusBadRequest, [])
    case Some(req) =>
      var lookup := GetPurposesByPublicID(req.purposePublicId);
      match purpose
      case NoRows => Answer(StatusNotFound, [lookup])
      case DbError => Answer(StatusInternalServerError, [lookup])
      case Found(p) =>
        match counter
        case NoRows => Answer(StatusInternalServerError, [lookup, UpdateTicketCounter])
        case DbError => Answer(StatusInternalServerError, [lookup, UpdateTicketCounter])
        case Found(dtn) =>
          var q := CreateVisitor(pid, StrUtils.InitNullString(req.name), p.publicId, dtn);
          Answer(if created.Found? then StatusCreated else StatusInternalServerError,
                 [lookup, UpdateTicketCounter, q])
  }

  /**
    PUT /api/visitors/{visitor_public_id} (users only): path length (400) before resolution,
    then the body; the public ID written is the path's, whatever the body says.
  */
  function PutVisitorsByPublicID(pathValue: string, publicIDLength: int, ctx: Identity.Context,
                                 getUser: string -> Lookup<User>, body: Option<VisitorsPutRequest>,
                                 updated: Lookup<Visitor>): (r: Reply)
    ensures StrUtils.GetPublicIDFromPathValue(pathValue, publicIDLength).Err? ==>
      Status(r) == Some(StatusBadRequest) && r.queries == []
    ensures StrUtils.GetPublicIDFromPathValue(pathValue, publicIDLength).Ok? && !Identified(ctx, getUser) ==>
      Status(r) == Some(UnidentifiedStatus(ctx, getUser)) && r.queries == UserLookup(ctx)
    ensures StrUtils.GetPublicIDFromPathValue(pathValue, publicIDLength).Ok? && Identified(ctx, getUser)
            && body.None? ==>
      Status(r) == Some(StatusBadRequest) && r.queries == UserLookup(ctx)
    ensures StrUtils.GetPublicIDFromPathValue(pathValue, publicIDLength).Ok? && Identified(ctx, getUser)
            && body.Some? ==>
      var req := body.value;
      r.queries == UserLookup(ctx) + [SetVisitorByPublicID(pathValue, Database.NullString(req.name, true),
                                                            req.purposePublicId, req.status)]
      && Status(r) == Some(OutcomeStatus(updated, StatusOK))
  {
    match StrUtils.GetPublicIDFromPathValue(pathValue, publicIDLength)
    case Err(_) => Answer(StatusBadRequest, [])
    case Ok(pvid) =>
      match Authenticate(ctx, getUser, Some(StatusUnauthorized))
      case Deny(log) => Reply(log, UserLookup(ctx))
      case Admit(_) =>
        match body
        case None => Answer(StatusBadRequest, UserLookup(ctx))
        case Some(req) =>
          var req' := req.(publicId := pvid);
          var q := SetVisitorByPublicID(req'.publicId, StrUtils.InitNullString(req'.name), req'.purposePublicId, req'.status);
          Answer(OutcomeStatus(updated, StatusOK), UserLookup(ctx) + [q])
  }

  /** Two bodies that differ only in their `public_id` lead to the same reply. */
  lemma BodyPublicIdIgnored(pathValue: string, publicIDLength: int, ctx: Identity.Context,
                            getUser: string -> Lookup<User>, req: VisitorsPutRequest, other: string,
                            updated: Lookup<Visitor>)
    ensures PutVisitorsByPublicID(pathValue, publicIDLength, ctx, getUser, Some(req.(publicId := other)), updated)
         == PutVisitorsByPublicID(pathValue, publicIDLength, ctx, getUser, Some(req), updated)
  {
  }

  /** The list query HandlerGetVisitors issues for the two query parameters and the parsed status. */
  function ListQuery(purpose: string, statusText: string, status: int): Query {
    if purpose != "" && statusText != "" then GetVisitorsByPurposePublicIDAndStatus(purpose, status)
    else if purpose != "" && statusText == "" then GetVisitorsByPurposePublicID(purpose)
    else if purpose == "" && statusText != "" then GetVisitorsByStatus(status)
    else Database.GetVisitors
  }

  /**
    GET /api/visitors (users only): `status` must parse as a 32-bit integer (400). As the empty
    string does not parse, only two of the four query-parameter cases can ever be reached: by
    purpose and status, or by status alone.
  */
  function GetVisitors(ctx: Identity.Context, getUser: string -> Lookup<User>, purpose: string,
                       statusText: string, visitors: Lookup<seq<Visitor>>): (r: Reply)
    ensures !Identified(ctx, getUser) ==>
      Status(r) == Some(UnidentifiedStatus(ctx, getUser)) && r.queries == UserLookup(ctx)
    ensures Identified(ctx, getUser) && Decimal.ParseInt(statusText, 32).None? ==>
      Status(r) == Some(StatusBadRequest) && r.queries == UserLookup(ctx)
    ensures Identified(ctx, getUser) && Decimal.ParseInt(statusText, 32).Some? ==>
      var status := Decimal.ParseInt(statusText, 32).value;
      r.queries == UserLookup(ctx) + [if purpose != "" then GetVisitorsByPurposePublicIDAndStatus(purpose, status)
                                      else GetVisitorsByStatus(status)]
      && Status(r) == Some(OutcomeStatus(visitors, StatusOK))
  {
    match Authenticate(ctx, getUser, Some(StatusUnauthorized))
    case Deny(log) => Reply(log, UserLookup(ctx))
    case Admit(_) =>
      match Decimal.ParseInt(statusText, 32)
      case None => Answer(StatusBadRequest, UserLookup(ctx))
      case Some(status) =>
        Answer(OutcomeStatus(visitors, StatusOK), UserLookup(ctx) + [ListQuery(purpose, statusText, status)])
  }

  /** Without a `status` parameter an identified user always gets 400 and no list. */
  lemma StatusParameterRequired(ctx: Identity.Context, getUser: string -> Lookup<User>, purpose: string,
                                visitors: Lookup<seq<Visitor>>)
    requires Identified(ctx, getUser)
    ensures GetVisitors(ctx, getUser, purpose, "", visitors) == Answer(StatusBadRequest, UserLookup(ctx))
  {
    Decimal.EmptyIsNotAnInteger(32);
  }

  const VisitorKey: string := Cookies.VisitorIDContextKey

  /** The request carries a visitor identity that names an existing visitor. */
  predicate VisitorIdentified(ctx: Identity.Context, getVisitor: string -> Lookup<Visitor>) {
    VisitorKey in ctx && getVisitor(ctx[VisitorKey]).Found?
  }

  /** The visitor lookup the visitor resolver issues. */
  function VisitorLookup(ctx: Identity.Context): seq<Query> {
    if VisitorKey in ctx then [Database.GetVisitorsByPublicID(ctx[VisitorKey])] else []
  }

  /** The visitor-or-user rule: any user may read a visitor; a visitor only themselves. */
  predicate MayRead(ctx: Identity.Context, getUser: string -> Lookup<User>,
                    getVisitor: string -> Lookup<Visitor>, pvid: string) {
    Identified(ctx, getUser)
    || (VisitorIdentified(ctx, getVisitor) && getVisitor(ctx[VisitorKey]).value.publicId == pvid)
  }

  /**
    GET /api/visitors/{visitor_public_id}, as written: both resolvers run and each writes its
    error status when it fails, before the access rule is applied. The client therefore sees the
    user resolver's status whenever there is no user, and the visitor resolver's whenever there
    is a user but no visitor; the rule's own 401 and 403 are never what the client receives.
  */
  function GetVisitorsByPublicID(pathValue: string, publicIDLength: int, ctx: Identity.Context,
                                 getUser: string -> Lookup<User>, getVisitor: string -> Lookup<Visitor>,
                                 target: Lookup<Visitor>): (r: Reply)
    ensures StrUtils.GetPublicIDFromPathValue(pathValue, publicIDLength).Err? ==>
      Status(r) == Some(StatusBadRequest) && r.queries == []
    ensures StrUtils.GetPublicIDFromPathValue(pathValue, publicIDLength).Ok? ==>
      |r.queries| >= |UserLookup(ctx) + VisitorLookup(ctx)|
      && r.queries[..|UserLookup(ctx) + VisitorLookup(ctx)|] == UserLookup(ctx) + VisitorLookup(ctx)
      && Status(r) == Some(
           if !Identified(ctx, getUser) then UnidentifiedStatus(ctx, getUser)
           else if !VisitorIdentified(ctx, getVisitor) then VisitorUnidentifiedStatus(ctx, getVisitor)
           else OutcomeStatus(target, StatusOK))
  {
    match StrUtils.GetPublicIDFromPathValue(pathValue, publicIDLength)
    case Err(_) => Answer(StatusBadRequest, [])
    case Ok(pvid) =>
      var user := Identity.UserFromContext(ctx, getUser);
      var visitor := Identity.VisitorFromContext(ctx, getVisitor);
      var resolved := user.log + visitor.log;
      var lookups := UserLookup(ctx) + VisitorLookup(ctx);
      if user.result.Err? && visitor.result.Err? then
        Reply(resolved + [Write(StatusUnauthorized)], lookups)
      else if user.result.Err? && pvid != visitor.result.value.publicId then
        Reply(resolved + [Write(StatusForbidden)], lookups)
      else
        Reply(resolved + [Write(OutcomeStatus(target, StatusOK))], lookups + [Database.GetVisitorsByPublicID(pvid)])
  }

  /** The status the visitor resolver makes the client see when it fails. */
  function VisitorUnidentifiedStatus(ctx: Identity.Context, getVisitor: string -> Lookup<Visitor>): int {
    if VisitorKey !in ctx then StatusUnauthorized
    else if getVisitor(ctx[VisitorKey]).NoRows? then StatusNotFound
    else StatusInternalServerError
  }

  /**
    GET /api/visitors/{visitor_public_id} as evidently intended: the resolvers only report, and
    the access rule alone decides between 401, 403 and the lookup.
  */
  function GetVisitorsByPublicIDFixed(pathValue: string, publicIDLength: int, ctx: Identity.Context,
                                      getUser: string -> Lookup<User>, getVisitor: string -> Lookup<Visitor>,
                                      target: Lookup<Visitor>): (r: Reply)
    ensures StrUtils.GetPublicIDFromPathValue(pathValue, publicIDLength).Err? ==>
      Status(r) == Some(StatusBadRequest) && r.queries == []
    ensures StrUtils.GetPublicIDFromPathValue(pathValue, publicIDLength).Ok? ==>
      (Database.GetVisitorsByPublicID(pathValue) in r.queries <==> MayRead(ctx, getUser, getVisitor, pathValue))
      && Status(r) == Some(
           if MayRead(ctx, getUser, getVisitor, pathValue) then OutcomeStatus(target, StatusOK)
           else if VisitorIdentified(ctx, getVisitor) then StatusForbidden
           else StatusUnauthorized)
  {
    match StrUtils.GetPublicIDFromPathValue(pathValue, publicIDLength)
    case Err(_) => Answer(StatusBadRequest, [])
    case Ok(pvid) =>
      var user := Identity.UserFromContext(ctx, getUser).result;
      var visitor := Identity.VisitorFromContext(ctx, getVisitor).result;
      if user.Err? && visitor.Err? then Answer(StatusUnauthorized, [])
      else if user.Err? && pvid != visitor.value.publicId then Answer(StatusForbidden, [])
      else Answer(OutcomeStatus(target, StatusOK), [Database.GetVisitorsByPublicID(pvid)])
  }

  /** As written, a visitor reading their own record without a user identity is refused with 401. */
  lemma VisitorReadingSelfRefused(pathValue: string, publicIDLength: int, ctx: Identity.Context,
                                  getUser: string -> Lookup<User>, getVisitor: string -> Lookup<Visitor>,
                                  target: Lookup<Visitor>)
    requires StrUtils.GetPublicIDFromPathValue(pathValue, publicIDLength).Ok?
    requires UserKey !in ctx
    requires VisitorIdentified(ctx, getVisitor) && getVisitor(ctx[VisitorKey]).value.publicId == pathValue
    requires target.Found?
    ensures Status(GetVisitorsByPublicID(pathValue, publicIDLength, ctx, getUser, getVisitor, target)) == Some(StatusUnauthorized)
    ensures Status(GetVisitorsByPublicIDFixed(pathValue, publicIDLength, ctx, getUser, getVisitor, target)) == Some(StatusOK)
  {
  }

  /** As written, a user without a visitor identity is refused with 401 as well. */
  lemma UserReadingVisitorRefused(pathValue: string, publicIDLength: int, ctx: Identity.Context,
                                  getUser: string -> Lookup<User>, getVisitor: string -> Lookup<Visitor>,
                                  target: Lookup<Visitor>)
    requires StrUtils.GetPublicIDFromPathValue(pathValue, publicIDLength).Ok?
    requires Identified(ctx, getUser) && VisitorKey !in ctx
    requires target.Found?
    ensures Status(GetVisitorsByPublicID(pathValue, publicIDLength, ctx, getUser, getVisitor, target)) == Some(StatusUnauthorized)
    ensures Status(GetVisitorsByPublicIDFixed(pathValue, publicIDLength, ctx, getUser, getVisitor, target)) == Some(StatusOK)
  {
  }

  /**
    POST /api/visitors changes a table only for a request naming an existing purpose, and it
    creates a visitor only once the ticket counter has advanced.
  */
  lemma PostVisitorsWritesOnlyForKnownPurpose(body: Option<VisitorsPostRequest>, purpose: Lookup<Purpose>,
                                              counter: Lookup<int>, pid: string, created: Lookup<Visitor>)
    ensures var qs := PostVisitors(body, purpose, counter, pid, created).queries;
      (!ReadOnly(qs) ==> body.Some? && purpose.Found?)
      && forall i :: 0 <= i < |qs| && qs[i].CreateVisitor? ==> counter.Found? && qs[i].dailyTicketNumber == counter.value
  {
  }

  /** Listing visitors only reads, whoever asks. */
  lemma VisitorListNeverWrites(ctx: Identity.Context, getUser: string -> Lookup<User>, purpose: string,
                               statusText: string, visitors: Lookup<seq<Visitor>>)
    ensures ReadOnly(GetVisitors(ctx, getUser, purpose, statusText, visitors).queries)
  {
    assert ReadOnly(UserLookup(ctx));
  }

  /** Reading one visitor only reads, in the code as written and in the corrected one. */
  lemma VisitorReadNeverWrites(ctx: Identity.Context, getUser: string -> Lookup<User>, getVisitor: string -> Lookup<Visitor>,
                               pathValue: string, publicIDLength: int, target: Lookup<Visitor>)
    ensures ReadOnly(GetVisitorsByPublicID(pathValue, publicIDLength, ctx, getUser, getVisitor, target).queries)
    ensures ReadOnly(GetVisitorsByPublicIDFixed(pathValue, publicIDLength, ctx, getUser, getVisitor, target).queries)
  {
    var lookups := UserLookup(ctx) + VisitorLookup(ctx);
    assert ReadOnly(lookups);
    assert ReadOnly(lookups + [Database.GetVisitorsByPublicID(pathValue)]);
  }
}
