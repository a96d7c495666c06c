/**
  The warehouse tables the portal reads and writes, as immutable records,
  and the connection the pages obtain from the cached session factory.
 */
module Tables {

  datatype Option<T> = None | Some(value: T)

  /** A row of DIM_USERS. */
  datatype UserRow = UserRow(
    userId: string,
    fullName: string,
    email: string,
    department: string,
    brandAccess: string,
    isActive: bool,
    password: string)

  /** A row of USER_ROLE_MAPPING. */
  datatype RoleMapping = RoleMapping(userId: string, roleName: string)

  /** A row of DIM_ROLES. */
  datatype RoleRow = RoleRow(roleName: string, canEditUsers: bool)

  /** The record a successful sign-in stores as `user_info`:
      EMAIL, FULL_NAME, ROLE_NAME and CAN_EDIT_USERS of the role join. */
  datatype UserInfo = UserInfo(email: string, fullName: string, roleName: string, canEditUsers: bool)

  /** The columns an AUDIT_LOGS insert supplies; AUDIT_ID and ACTION_AT are
      assigned by the warehouse. */
  datatype AuditEntry = AuditEntry(
    actionType: string,
    details: string,
    changedBy: string,
    hostIp: string,
    hostName: string)

  datatype Warehouse = Warehouse(
    users: seq<UserRow>,
    mappings: seq<RoleMapping>,
    roles: seq<RoleRow>,
    audit: seq<AuditEntry>)

  /** The statements the core issues; a statement in `failing` raises. */
  datatype Stmt = UserLookup | RoleLookup | UserInsert | RoleInsert | UserUpdate | AuditInsert

  /** What `get_snowflake_session()` yields: no session, or a session over a
      warehouse whose `failing` statements raise when executed. */
  datatype Link = Offline | Online(db: Warehouse, failing: set<Stmt>) {
    predicate Runs(s: Stmt) {
      Online? && s !in failing
    }
  }

  /** The machine's name and address (`socket.gethostname()` and its lookup). */
  datatype Host = Host(name: string, ip: string)
}
