/**
  The user endpoints (api/handler_users.go): creating, editing and reading users. Email syntax
  (`net/mail`), the letter and digit classes and bcrypt hashing are inputs; a body is None when
  it is not valid JSON for the request type.
*/
module UserHandlers {
  import opened Wrappers
  import opened Http
  import opened Database
  import opened Handlers
  import Identity
  import StrUtils

  datatype UsersRequest = UsersRequest(email: string, password: string, fullName: string)

  datatype UsersAdminRequest = UsersAdminRequest(email: string, fullName: string, isAdmin: bool, isActive: bool)

  /** The library functions the parameter check calls. `hash` is None when hashing fails. */
  datatype Capabilities = Capabilities(
    validEmail: string -> bool,
    isLetter: char -> bool,
    isDigit: char -> bool,
    hash: string -> Option<string>)

  datatype ParamError = InvalidEmail | InvalidPassword(reason: StrUtils.PasswordError) | HashFailed

  function ParamStatus(e: ParamError): int {
    if e.HashFailed? then StatusInternalServerError else StatusBadRequest
  }

  /**
    ProcessUsersParameters: the email is checked before the password, and only a request passing
    both is hashed. Each failure writes its status (`ParamStatus`).
  */
  function ProcessUsersParameters(req: UsersRequest, caps: Capabilities): (r: Result<string, ParamError>)
    ensures r == Err(InvalidEmail) <==> !caps.validEmail(req.email)
    ensures (r.Err? && r.error.InvalidPassword?) <==>
      caps.validEmail(req.email) && StrUtils.ValidatePassword(req.password, caps.isLetter, caps.isDigit).Some?
    ensures r.Err? && r.error.InvalidPassword? ==>
      Some(r.error.reason) == StrUtils.ValidatePassword(req.password, caps.isLetter, caps.isDigit)
    ensures r == Err(HashFailed) <==>
      caps.validEmail(req.email) && StrUtils.ValidatePassword(req.password, caps.isLetter, caps.isDigit).None?
      && caps.hash(req.password).None?
    ensures r.Ok? ==> caps.hash(req.password) == Some(r.value)
  {
    if !caps.validEmail(req.email) then Err(InvalidEmail)
    else
      match StrUtils.ValidatePassword(req.password, caps.isLetter, caps.isDigit)
      case Some(reason) => Err(InvalidPassword(reason))
      case None =>
        match caps.hash(req.password)
        case None => Err(HashFailed)
        case Some(h) => Ok(h)
  }

  /** A request rejected for its email or password is rejected whatever the hash function does. */
  lemma RejectedBeforeHashing(req: UsersRequest, caps: Capabilities, other: string -> Option<string>)
    requires ProcessUsersParameters(req, caps).Err?
    requires ProcessUsersParameters(req, caps).error != HashFailed
    ensures ProcessUsersParameters(req, caps.(hash := other)) == ProcessUsersParameters(req, caps)
  {
  }

  /**
    POST /api/users (admin only): a failed resolution returns without writing more, a non-admin
    gets 401, then the body, the parameters and the new public ID are checked before CreateUser.
  */
  function PostUsers(ctx: Identity.Context, getUser: string -> Lookup<User>, body: Option<UsersRequest>,
                     caps: Capabilities, pid: Option<string>, created: Lookup<User>): (r: Reply)
    ensures !Identified(ctx, getUser) ==>
      Status(r) == Some(UnidentifiedStatus(ctx, getUser)) && r.queries == UserLookup(ctx)
    ensures Identified(ctx, getUser) && !Accessing(ctx, getUser).isAdmin ==>
      Status(r) == Some(StatusUnauthorized) && r.queries == UserLookup(ctx)
    ensures Identified(ctx, getUser) && Accessing(ctx, getUser).isAdmin ==>
      (body.None? ==> Status(r) == Some(StatusBadRequest))
      && (body.Some? && ProcessUsersParameters(body.value, caps).Err? ==>
            Status(r) == Some(ParamStatus(ProcessUsersParameters(body.value, caps).error)))
      && (body.Some? && ProcessUsersParameters(body.value, caps).Ok? && pid.None? ==>
            Status(r) == Some(StatusInternalServerError))
    ensures |r.queries| > |UserLookup(ctx)| <==>
      Identified(ctx, getUser) && Accessing(ctx, getUser).isAdmin && body.Some?
      && ProcessUsersParameters(body.value, caps).Ok? && pid.Some?
    ensures |r.queries| > |UserLookup(ctx)| ==>
      var req := body.value;
      r.queries == UserLookup(ctx) + [CreateUser(pid.value, req.email, ProcessUsersParameters(req, caps).value, req.fullName)]
      && Status(r) == Some(if created.Found? then StatusCreated else StatusInternalServerError)
  {
    match Authenticate(ctx, getUser, None)
    case Deny(log) => Reply(log, UserLookup(ctx))
    case Admit(user) =>
      var qs := UserLookup(ctx);
      if !user.isAdmin then Answer(StatusUnauthorized, qs)
      else
        match body
        case None => Answer(StatusBadRequest, qs)
        case Some(req) =>
          match ProcessUsersParameters(req, caps)
          case Err(e) => Answer(ParamStatus(e), qs)
          case Ok(hashed) =>
            match pid
            case None => Answer(StatusInternalServerError, qs)
            case Some(id) =>
              var q := CreateUser(id, req.email, hashed, req.fullName);
              Answer(if created.Found? then StatusCreated else StatusInternalServerError, qs + [q])
  }

  /**
    PUT /api/users: a user changes their own email and password; the update is keyed by the
    accessing user's own ID and no other. An update finding no row answers 403.
  */
  function PutUsers(ctx: Identity.Context, getUser: string -> Lookup<User>, body: Option<UsersRequest>,
                    caps: Capabilities, updated: Lookup<User>): (r: Reply)
    ensures !Identified(ctx, getUser) ==>
      Status(r) == Some(UnidentifiedStatus(ctx, getUser)) && r.queries == UserLookup(ctx)
    ensures Identified(ctx, getUser) && body.None? ==> Status(r) == Some(StatusBadRequest)
    ensures Identified(ctx, getUser) && body.Some? && ProcessUsersParameters(body.value, caps).Err? ==>
      Status(r) == Some(ParamStatus(ProcessUsersParameters(body.value, caps).error))
    ensures |r.queries| > |UserLookup(ctx)| <==>
      Identified(ctx, getUser) && body.Some? && ProcessUsersParameters(body.value, caps).Ok?
    ensures |r.queries| > |UserLookup(ctx)| ==>
      r.queries == UserLookup(ctx) + [SetUserEmailPasswordByID(Accessing(ctx, getUser).id, body.value.email,
                                                                ProcessUsersParameters(body.value, caps).value)]
      && Status(r) == Some(match updated
                           case Found(_) => StatusOK
                           case NoRows => StatusForbidden
                           case DbError => StatusInternalServerError)
  {
    match Authenticate(ctx, getUser, Some(StatusUnauthorized))
    case Deny(log) => Reply(log, UserLookup(ctx))
    case Admit(user) =>
      var qs := UserLookup(ctx);
      match body
      case None => Answer(StatusBadRequest, qs)
      case Some(req) =>
        match ProcessUsersParameters(req, caps)
        case Err(e) => Answer(ParamStatus(e), qs)
        case Ok(hashed) =>
          var q := SetUserEmailPasswordByID(user.id, req.email, hashed);
          var status := if updated.NoRows? then StatusForbidden else OutcomeStatus(updated, StatusOK);
          Answer(status, qs + [q])
  }

  /**
    Who may edit a user through PUT /api/users/{id}: an admin anyone; anyone else only
    themselves, and without making themselves an admin or changing their own active flag.
  */
  predicate PolicyAllows(user: User, pid: string, req: UsersAdminRequest) {
    user.isAdmin || (user.publicId == pid && !req.isAdmin && req.isActive == user.isActive)
  }

  /**
    PUT /api/users/{public_user_id}: resolution (401), path length (400), body (400), then the
    edit policy (403 both for someone else's account and for forbidden fields on one's own).
  */
  function PutUsersByID(ctx: Identity.Context, getUser: string -> Lookup<User>, pathValue: string,
                        publicIDLength: int, body: Option<UsersAdminRequest>, updated: Lookup<User>): (r: Reply)
    ensures !Identified(ctx, getUser) ==>
      Status(r) == Some(UnidentifiedStatus(ctx, getUser)) && r.queries == UserLookup(ctx)
    ensures Identified(ctx, getUser) && StrUtils.GetPublicIDFromPathValue(pathValue, publicIDLength).Err? ==>
      Status(r) == Some(StatusBadRequest) && r.queries == UserLookup(ctx)
    ensures Identified(ctx, getUser) && StrUtils.GetPublicIDFromPathValue(pathValue, publicIDLength).Ok?
            && body.None? ==>
      Status(r) == Some(StatusBadRequest)
    ensures Identified(ctx, getUser) && StrUtils.GetPublicIDFromPathValue(pathValue, publicIDLength).Ok?
            && body.Some? && !PolicyAllows(Accessing(ctx, getUser), pathValue, body.value) ==>
      Status(r) == Some(StatusForbidden) && r.queries == UserLookup(ctx)
    ensures |r.queries| > |UserLookup(ctx)| <==>
      Identified(ctx, getUser) && StrUtils.GetPublicIDFromPathValue(pathValue, publicIDLength).Ok?
      && body.Some? && PolicyAllows(Accessing(ctx, getUser), pathValue, body.value)
    ensures |r.queries| > |UserLookup(ctx)| ==>
      var req := body.value;
      r.queries == UserLookup(ctx) + [SetUserByPublicID(pathValue, req.email, req.fullName, req.isAdmin, req.isActive)]
      && Status(r) == Some(OutcomeStatus(updated, StatusOK))
  {
    match Authenticate(ctx, getUser, Some(StatusUnauthorized))
    case Deny(log) => Reply(log, UserLookup(ctx))
    case Admit(user) =>
      var qs := UserLookup(ctx);
      match StrUtils.GetPublicIDFromPathValue(pathValue, publicIDLength)
      case Err(_) => Answer(StatusBadRequest, qs)
      case Ok(pid) =>
        match body
        case None => Answer(StatusBadRequest, qs)
        case Some(req) =>
          if !user.isAdmin && user.publicId != pid then Answer(StatusForbidden, qs)
          else if !user.isAdmin && ((req.isAdmin && !user.isAdmin) || req.isActive != user.isActive) then
            Answer(StatusForbidden, qs)
          else
            var q := SetUserByPublicID(pid, req.email, req.fullName, req.isAdmin, req.isActive);
            Answer(OutcomeStatus(updated, StatusOK), qs + [q])
  }

  /** An admin is never stopped by the edit policy. */
  lemma AdminNeverBlocked(ctx: Identity.Context, getUser: string -> Lookup<User>, pathValue: string,
                          publicIDLength: int, req: UsersAdminRequest, updated: Lookup<User>)
    requires Identified(ctx, getUser) && Accessing(ctx, getUser).isAdmin
    requires StrUtils.GetPublicIDFromPathValue(pathValue, publicIDLength).Ok?
    ensures Status(PutUsersByID(ctx, getUser, pathValue, publicIDLength, Some(req), updated)) != Some(StatusForbidden)
  {
  }

  /**
    A non-admin's edit that reaches the table is of their own row, and keeps them a non-admin
    with their active flag as it was.
  */
  lemma NoSelfEscalation(ctx: Identity.Context, getUser: string -> Lookup<User>, pathValue: string,
                         publicIDLength: int, body: Option<UsersAdminRequest>, updated: Lookup<User>)
    requires Identified(ctx, getUser) && !Accessing(ctx, getUser).isAdmin
    ensures var r := PutUsersByID(ctx, getUser, pathValue, publicIDLength, body, updated);
      |r.queries| > |UserLookup(ctx)| ==>
        var q := r.queries[|r.queries| - 1];
        q.publicId == Accessing(ctx, getUser).publicId
        && !q.isAdmin && q.isActive == Accessing(ctx, getUser).isActive
  {
  }

  /** GET /api/users (admin only): 403 for a non-admin, then the query's 404/500/200. */
  function GetUsers(ctx: Identity.Context, getUser: string -> Lookup<User>, users: Lookup<seq<User>>): (r: Reply)
    ensures !Identified(ctx, getUser) ==>
      Status(r) == Some(UnidentifiedStatus(ctx, getUser)) && r.queries == UserLookup(ctx)
    ensures Identified(ctx, getUser) && !Accessing(ctx, getUser).isAdmin ==>
      Status(r) == Some(StatusForbidden) && r.queries == UserLookup(ctx)
    ensures Identified(ctx, getUser) && Accessing(ctx, getUser).isAdmin ==>
      Status(r) == Some(OutcomeStatus(users, StatusOK)) && r.queries == UserLookup(ctx) + [Database.GetUsers]
  {
    match Authenticate(ctx, getUser, Some(StatusUnauthorized))
    case Deny(log) => Reply(log, UserLookup(ctx))
    case Admit(user) =>
      if !user.isAdmin then Answer(StatusForbidden, UserLookup(ctx))
      else Answer(OutcomeStatus(users, StatusOK), UserLookup(ctx) + [Database.GetUsers])
  }

  /**
    GET /api/users/{public_user_id}: only a missing identity gets the handler's own 401; other
    resolution failures return with the resolver's status. An inactive user gets 403 before the
    path is even looked at.
  */
  function GetUsersByID(ctx: Identity.Context, getUser: string -> Lookup<User>, pathValue: string,
                        publicIDLength: int, target: Lookup<User>): (r: Reply)
    ensures !Identified(ctx, getUser) ==>
      Status(r) == Some(UnidentifiedStatus(ctx, getUser)) && r.queries == UserLookup(ctx)
    ensures Identified(ctx, getUser) && !Accessing(ctx, getUser).isActive ==>
      Status(r) == Some(StatusForbidden) && r.queries == UserLookup(ctx)
    ensures Identified(ctx, getUser) && Accessing(ctx, getUser).isActive
            && StrUtils.GetPublicIDFromPathValue(pathValue, publicIDLength).Err? ==>
      Status(r) == Some(StatusBadRequest) && r.queries == UserLookup(ctx)
    ensures Identified(ctx, getUser) && Accessing(ctx, getUser).isActive
            && StrUtils.GetPublicIDFromPathValue(pathValue, publicIDLength).Ok? ==>
      Status(r) == Some(OutcomeStatus(target, StatusOK))
      && r.queries == UserLookup(ctx) + [GetUserByPublicID(pathValue)]
  {
    var res := Identity.UserFromContext(ctx, getUser);
    match res.result
    case Err(e) =>
      var own := if e == Identity.NoIDInContext then [Write(StatusUnauthorized)] else [];
      Reply(res.log + own, UserLookup(ctx))
    case Ok(user) =>
      var qs := UserLookup(ctx);
      if !user.isActive then Answer(StatusForbidden, qs)
      else
        match StrUtils.GetPublicIDFromPathValue(pathValue, publicIDLength)
        case Err(_) => Answer(StatusBadRequest, qs)
        case Ok(pid) => Answer(OutcomeStatus(target, StatusOK), qs + [GetUserByPublicID(pid)])
  }

  /** POST /api/users writes only for an admin whose request passes the parameter check. */
  lemma PostUsersWritesOnlyForAdmins(ctx: Identity.Context, getUser: string -> Lookup<User>, body: Option<UsersRequest>,
                                     caps: Capabilities, pid: Option<string>, created: Lookup<User>)
    ensures !ReadOnly(PostUsers(ctx, getUser, body, caps, pid, created).queries) ==>
      Identified(ctx, getUser) && Accessing(ctx, getUser).isAdmin
      && body.Some? && ProcessUsersParameters(body.value, caps).Ok?
  {
  }

  /** PUT /api/users writes only the accessing user's own row, and only with a hashed password. */
  lemma PutUsersWritesOwnRow(ctx: Identity.Context, getUser: string -> Lookup<User>, body: Option<UsersRequest>,
                             caps: Capabilities, updated: Lookup<User>)
    ensures var qs := PutUsers(ctx, getUser, body, caps, updated).queries;
      forall i :: 0 <= i < |qs| && Writes(qs[i]) ==>
        Identified(ctx, getUser) && body.Some? && ProcessUsersParameters(body.value, caps).Ok?
        && qs[i] == SetUserEmailPasswordByID(Accessing(ctx, getUser).id, body.value.email,
                                             ProcessUsersParameters(body.value, caps).value)
  {
  }

  /** The GET handlers only read. */
  lemma UserReadsNeverWrite(ctx: Identity.Context, getUser: string -> Lookup<User>, users: Lookup<seq<User>>,
                            pathValue: string, publicIDLength: int, target: Lookup<User>)
    ensures ReadOnly(GetUsers(ctx, getUser, users).queries)
    ensures ReadOnly(GetUsersByID(ctx, getUser, pathValue, publicIDLength, target).queries)
  {
  }
}
