/**
  The rows the handlers read and write, and the shape of a query's outcome. The SQL layer is not
  part of this model: every query outcome is an input of the handler that issues it.
*/
module Database {

  /** A query's outcome: a row, `sql.ErrNoRows`, or any other error. */
  datatype Lookup<T> = Found(value: T) | NoRows | DbError

  /** `sql.NullString`: `valid` false means SQL NULL. */
  datatype NullString = NullString(str: string, valid: bool)

  datatype User = User(
    id: string,
    publicId: string,
    email: string,
    hashedPassword: string,
    fullName: string,
    isAdmin: bool,
    isActive: bool)

  datatype Visitor = Visitor(
    publicId: string,
    name: NullString,
    purposePublicId: string,
    status: int,
    dailyTicketNumber: int)

  datatype Purpose = Purpose(publicId: string, name: string)

  datatype Desk = Desk(publicId: string, name: string, description: NullString, isActive: bool)

  datatype ServiceLog = ServiceLog(
    publicId: string,
    visitorPublicId: string,
    userPublicId: string,
    deskPublicId: string,
    isActive: bool)

  /** Every query the modelled handlers issue, with the parameters they pass. */
  datatype Query =
    | GetUserByEmail(email: string)
    | GetUsers
    | GetUserByPublicID(publicId: string)
    | CreateUser(publicId: string, email: string, hashedPassword: string, fullName: string)
    | SetUserEmailPasswordByID(id: string, email: string, hashedPassword: string)
    | SetUserByPublicID(publicId: string, email: string, fullName: string, isAdmin: bool, isActive: bool)
    | GetPurposesByPublicID(publicId: string)
    | UpdateTicketCounter
    | CreateVisitor(publicId: string, name: NullString, purposePublicId: string, dailyTicketNumber: int)
    | SetVisitorByPublicID(publicId: string, name: NullString, purposePublicId: string, status: int)
    | GetVisitorsByPurposePublicIDAndStatus(purposePublicId: string, status: int)
    | GetVisitorsByPurposePublicID(purposePublicId: string)
    | GetVisitorsByStatus(status: int)
    | GetVisitors
    | GetVisitorsByPublicID(publicId: string)
    | CreateDesks(publicId: string, deskName: string, description: NullString)
    | SetDesksByPublicID(publicId: string, deskName: string, description: NullString, isActive: bool)
    | GetDesks
    | GetDesksByPublicID(publicId: string)
    | CreateServiceLogs(publicId: string, userPublicId: string, visitorPublicId: string, deskPublicId: string)
    | SetServiceLogsByPublicID(publicId: string, visitorPublicId: string, userPublicId: string, deskPublicId: string, isActive: bool)
    | GetServiceLogsByPublicID(publicId: string)

  /** The queries that change a table; every other query only reads. */
  predicate Writes(q: Query) {
    || q.CreateUser? || q.SetUserEmailPasswordByID? || q.SetUserByPublicID?
    || q.UpdateTicketCounter? || q.CreateVisitor? || q.SetVisitorByPublicID?
    || q.CreateDesks? || q.SetDesksByPublicID?
    || q.CreateServiceLogs? || q.SetServiceLogsByPublicID?
  }
}
