/**
  The warehouse helpers (modules/database.py): the audit insert with its
  quote escaping and swallowed failures, user provisioning as three writes in
  a fixed order without rollback, and the user update with its SET clause.
 */
module Database {
  import opened Strings
  import opened Seqs
  import opened Tables
  import opened Literals
  import Auth

  /** The five values of the audit insert. Only the details are escaped, and
      only their quotes, so they read back as given exactly when they hold no
      backslash; the others are placed verbatim, and each reads back as given
      exactly when it holds no quote and no backslash. */
  function AuditValues(adminEmail: string, actionType: string, details: string, host: Host): (v: seq<string>)
    ensures |v| == 5
    ensures ReadLiteral(v[1]) == Some(details) <==> '\\' !in details
    ensures ReadLiteral(v[0]) == Verbatim(actionType) && ReadLiteral(v[2]) == Verbatim(adminEmail)
    ensures ReadLiteral(v[3]) == Verbatim(host.ip) && ReadLiteral(v[4]) == Verbatim(host.name)
  {
    EscapedLiteralRoundTrip(details);
    [SqlLiteral(actionType), SqlLiteral(EscapeQuotes(details)), SqlLiteral(adminEmail),
     SqlLiteral(host.ip), SqlLiteral(host.name)]
  }

  const AuditInsertHead := "INSERT INTO AUDIT_LOGS (ACTION_TYPE, ACTION_DETAILS, CHANGED_BY, HOST_IP, HOST_NAME) VALUES ("

  /** The audit insert statement (layout whitespace of the source omitted):
      the five values, separated by ", ", inside the VALUES parentheses; when
      no value holds a comma they read back one by one. */
  function AuditInsertSql(adminEmail: string, actionType: string, details: string, host: Host): (r: string)
    ensures |r| > |AuditInsertHead| && StartsWith(r, AuditInsertHead) && r[|r| - 1] == ')'
    ensures var v := AuditValues(adminEmail, actionType, details, host);
            (forall k :: 0 <= k < 5 ==> ',' !in v[k]) ==> SplitList(r[|AuditInsertHead|..|r| - 1]) == v
  {
    ValuesClause(AuditInsertHead, AuditValues(adminEmail, actionType, details, host))
  }

  /** `head` followed by the values separated by ", " and a closing parenthesis. */
  function ValuesClause(head: string, v: seq<string>): (r: string)
    requires |v| >= 1
    ensures |r| > |head| && StartsWith(r, head) && r[|r| - 1] == ')'
    ensures (forall k :: 0 <= k < |v| ==> ',' !in v[k]) ==> SplitList(r[|head|..|r| - 1]) == v
  {
    Enclosed(head, Join(v, ", "), ')');
    CommaFreeListReadsBack(v);
    head + Join(v, ", ") + [')']
  }

  /** The row the warehouse stores for five literals, or `None` when one of
      them is malformed and the statement fails. */
  function ReadAuditRow(v: seq<string>): Option<AuditEntry>
    requires |v| == 5
  {
    match (ReadLiteral(v[0]), ReadLiteral(v[1]), ReadLiteral(v[2]), ReadLiteral(v[3]), ReadLiteral(v[4]))
    case (Some(a), Some(d), Some(c), Some(ip), Some(n)) => Some(AuditEntry(a, d, c, ip, n))
    case _ => None
  }

  /** The AUDIT_LOGS row the audit insert stores, or `None` when a value
      breaks its literal and the insert fails. */
  function StoredAuditRow(adminEmail: string, actionType: string, details: string, host: Host)
    : (e: Option<AuditEntry>)
    ensures e.Some? && '\\' !in details ==> e.value.details == details
    ensures e.Some? && Plain(actionType) ==> e.value.actionType == actionType
    ensures e.Some? && Plain(adminEmail) ==> e.value.changedBy == adminEmail
    ensures Plain(actionType) && Plain(adminEmail) && Plain(host.ip) && Plain(host.name) && '\\' !in details ==>
              e == Some(AuditEntry(actionType, details, adminEmail, host.ip, host.name))
  {
    ReadAuditRow(AuditValues(adminEmail, actionType, details, host))
  }

  /** `log_admin_action(admin_email, action_type, details)`: the entries it
      appends to AUDIT_LOGS. It never raises: with no session it does nothing,
      and a failing insert is swallowed. */
  function LogAdminAction(link: Link, adminEmail: string, actionType: string, details: string, host: Host)
    : (w: seq<AuditEntry>)
    ensures |w| <= 1
    ensures w != [] ==> link.Runs(AuditInsert)
    ensures w != [] && '\\' !in details ==> w[0].details == details
    ensures w != [] && Plain(actionType) ==> w[0].actionType == actionType
    ensures w != [] && Plain(adminEmail) ==> w[0].changedBy == adminEmail
    ensures link.Runs(AuditInsert) && Plain(actionType) && Plain(adminEmail)
            && Plain(host.ip) && Plain(host.name) && '\\' !in details ==>
              w == [AuditEntry(actionType, details, adminEmail, host.ip, host.name)]
  {
    if !link.Runs(AuditInsert) then []
    else
      match StoredAuditRow(adminEmail, actionType, details, host)
      case Some(e) => [e]
      case None => []
  }

  /** The details the core logs: a tag, then the email or USER_ID. */
  const ProvisionedTag := "Provisioned: "
  const UpdatedTag := "ID: "

  /** The action types and detail tags the core logs are plain, so the
      details read back exactly when the value after the tag has no
      backslash. */
  lemma ActionTypesPlain()
    ensures Plain("CREATE_USER") && Plain("UPDATE_USER")
    ensures forall s :: '\\' !in s ==> '\\' !in ProvisionedTag + s && '\\' !in UpdatedTag + s
  {
  }

  /** Details ending in a backslash (a Windows path, say) escape the closing
      quote of their literal: the audit insert fails, the failure is
      swallowed, and the action goes unlogged. */
  lemma TrailingBackslashDropsEntry(link: Link, adminEmail: string, actionType: string, host: Host)
    ensures LogAdminAction(link, adminEmail, actionType, "ab\\", host) == []
  {
    EscapeQuoteless("ab\\");
    TrailingBackslash("ab");
    assert "ab" + "\\" == "ab\\";
    BrokenDetailsUnlogged(link, adminEmail, actionType, "ab\\", host);
  }

  /** Details whose escaped literal is malformed are never logged. */
  lemma BrokenDetailsUnlogged(link: Link, adminEmail: string, actionType: string, details: string, host: Host)
    requires ReadLiteral(SqlLiteral(EscapeQuotes(details))) == None
    ensures LogAdminAction(link, adminEmail, actionType, details, host) == []
  {
    assert StoredAuditRow(adminEmail, actionType, details, host) == None;
  }

  /** The audit row with the details escaped as a Snowflake literal needs
      them, backslashes doubled as well as quotes: every details text is
      stored as given. */
  function EscapedAuditRow(adminEmail: string, actionType: string, details: string, host: Host)
    : (e: Option<AuditEntry>)
    ensures e.Some? ==> e.value.details == details
    ensures Plain(actionType) && Plain(adminEmail) && Plain(host.ip) && Plain(host.name) ==>
              e == Some(AuditEntry(actionType, details, adminEmail, host.ip, host.name))
  {
    EscapeLiteralRoundTrip(details);
    var body := EscapeLiteral(details);
    EscapedBodyRow(adminEmail, actionType, body, details, host);
    ReadAuditRow([SqlLiteral(actionType), SqlLiteral(body), SqlLiteral(adminEmail),
                  SqlLiteral(host.ip), SqlLiteral(host.name)])
  }

  /** An audit row whose details literal reads back as `details` keeps them,
      and is exactly the given row when the other values are plain. */
  lemma EscapedBodyRow(adminEmail: string, actionType: string, body: string, details: string, host: Host)
    requires ReadLiteral(SqlLiteral(body)) == Some(details)
    ensures var e := ReadAuditRow([SqlLiteral(actionType), SqlLiteral(body), SqlLiteral(adminEmail),
                                   SqlLiteral(host.ip), SqlLiteral(host.name)]);
            && (e.Some? ==> e.value.details == details)
            && (Plain(actionType) && Plain(adminEmail) && Plain(host.ip) && Plain(host.name) ==>
                  e == Some(AuditEntry(actionType, details, adminEmail, host.ip, host.name)))
  {
    VerbatimLiteral(actionType);
    VerbatimLiteral(adminEmail);
    VerbatimLiteral(host.ip);
    VerbatimLiteral(host.name);
  }

  /** A write that took effect in the warehouse. */
  datatype Write = UserWritten(row: UserRow) | RoleWritten(mapping: RoleMapping) | AuditWritten(entry: AuditEntry)

  datatype Provisioning = Provisioning(ok: bool, writes: seq<Write>)

  /** The DIM_USERS row provisioning means to insert: always active. */
  function NewUserRow(userId: string, name: string, email: string, dept: string, brand: string, password: string)
    : UserRow
  {
    UserRow(userId, name, email, dept, brand, true, password)
  }

  /** None of the typed values holds a quote or a backslash. */
  predicate PlainValues(userId: string, name: string, email: string, dept: string, brand: string,
                        role: string, password: string) {
    && Plain(userId) && Plain(name) && Plain(email) && Plain(dept)
    && Plain(brand) && Plain(role) && Plain(password)
  }

  /** The row the user insert stores. Every value is placed verbatim between
      quotes and read back as its literal's text; `None` when a quote or a
      backslash breaks a literal and the insert fails. Plain values are
      stored as typed. */
  function StoredUser(userId: string, name: string, email: string, dept: string, brand: string, password: string)
    : (r: Option<UserRow>)
    ensures r.Some? <==> Verbatim(userId).Some? && Verbatim(name).Some? && Verbatim(email).Some?
                         && Verbatim(dept).Some? && Verbatim(brand).Some? && Verbatim(password).Some?
    ensures r.Some? ==> r.value.isActive && r.value.password == Verbatim(password).value
    ensures (Plain(userId) && Plain(name) && Plain(email) && Plain(dept) && Plain(brand)
             && Plain(password)) ==> r == Some(NewUserRow(userId, name, email, dept, brand, password))
  {
    match (Verbatim(userId), Verbatim(name), Verbatim(email), Verbatim(dept), Verbatim(brand), Verbatim(password))
    case (Some(i), Some(n), Some(e), Some(d), Some(b), Some(p)) => Some(NewUserRow(i, n, e, d, b, p))
    case _ => None
  }

  /** The row the mapping insert stores, read back the same way. */
  function StoredMapping(userId: string, role: string): (r: Option<RoleMapping>)
    ensures r.Some? <==> Verbatim(userId).Some? && Verbatim(role).Some?
    ensures Plain(userId) && Plain(role) ==> r == Some(RoleMapping(userId, role))
  {
    match (Verbatim(userId), Verbatim(role))
    case (Some(i), Some(r)) => Some(RoleMapping(i, r))
    case _ => None
  }

  /** `create_new_snowflake_user(u_id, name, email, dept, brand, role, pw, admin)`:
      insert the user, then the role mapping, then the CREATE_USER audit entry.
      There is no transaction: a failing role insert leaves the user row. */
  function Provision(link: Link, userId: string, name: string, email: string, dept: string, brand: string,
                     role: string, password: string, admin: string, host: Host): (p: Provisioning)
    ensures p.ok <==> link.Runs(UserInsert) && link.Runs(RoleInsert)
                      && StoredUser(userId, name, email, dept, brand, password).Some? && Verbatim(role).Some?
    ensures p.writes == [] <==> !link.Runs(UserInsert) || StoredUser(userId, name, email, dept, brand, password).None?
    ensures p.writes != [] ==> p.writes[0] == UserWritten(StoredUser(userId, name, email, dept, brand, password).value)
    ensures p.ok ==> |p.writes| >= 2 && p.writes[1] == RoleWritten(StoredMapping(userId, role).value)
    ensures !p.ok ==> |p.writes| <= 1
    ensures |p.writes| <= 3
    ensures |p.writes| == 3 ==> p.writes[2].AuditWritten? && p.writes[2].entry.actionType == "CREATE_USER"
    ensures |p.writes| == 3 && '\\' !in email ==> p.writes[2].entry.details == ProvisionedTag + email
    ensures |p.writes| == 3 && Plain(admin) ==> p.writes[2].entry.changedBy == admin
  {
    var stored := StoredUser(userId, name, email, dept, brand, password);
    if !link.Runs(UserInsert) || stored.None? then Provisioning(false, [])
    else
      var user := UserWritten(stored.value);
      var mapping := StoredMapping(userId, role);
      if !link.Runs(RoleInsert) || mapping.None? then Provisioning(false, [user])
      else
        Provisioning(true, [user, RoleWritten(mapping.value)] + ProvisionAudit(link, admin, email, host))
  }

  /** The CREATE_USER audit write that closes a provisioning, if the audit
      insert stores one. */
  function ProvisionAudit(link: Link, admin: string, email: string, host: Host): (w: seq<Write>)
    ensures |w| <= 1
    ensures w != [] ==> w[0].AuditWritten? && w[0].entry.actionType == "CREATE_USER"
    ensures w != [] && '\\' !in email ==> w[0].entry.details == ProvisionedTag + email
    ensures w != [] && Plain(admin) ==> w[0].entry.changedBy == admin
  {
    ActionTypesPlain();
    var audit := LogAdminAction(link, admin, "CREATE_USER", ProvisionedTag + email, host);
    if audit == [] then [] else [AuditWritten(audit[0])]
  }

  /** A name with an apostrophe breaks the user insert: nothing is written
      and the page reports failure. */
  lemma ApostropheNameRejected(link: Link, userId: string, email: string, dept: string, brand: string,
                               role: string, password: string, admin: string, host: Host)
    ensures var p := Provision(link, userId, "O'Brien", email, dept, brand, role, password, admin, host);
            !p.ok && p.writes == []
  {
    assert "O'Brien" == "O" + "'" + "Brien";
    LoneQuote("O", "Brien");
  }

  /** The warehouse after the writes, each appended to its table. */
  function Commit(db: Warehouse, writes: seq<Write>): Warehouse
    decreases |writes|
  {
    if writes == [] then db
    else
      var db' := match writes[0]
        case UserWritten(u) => db.(users := db.users + [u])
        case RoleWritten(m) => db.(mappings := db.mappings + [m])
        case AuditWritten(e) => db.(audit := db.audit + [e]);
      Commit(db', writes[1..])
  }

  /** Rows of a table added after `users` do not disturb the filter of `users`. */
  lemma {:induction false} FilterAppend<T>(s: seq<T>, x: T, keep: T -> bool)
    ensures Filter(s + [x], keep) == Filter(s, keep) + (if keep(x) then [x] else [])
  {
    if s != [] {
      assert (s + [x])[1..] == s[1..] + [x];
      FilterAppend(s[1..], x, keep);
    } else {
      assert s + [x] == [x];
    }
  }

  /** The fresh-identity setting of the two provisioning lemmas below. */
  ghost predicate FreshIdentity(db: Warehouse, userId: string, email: string) {
    && (forall u :: u in db.users ==> u.userId != userId)
    && (forall m :: m in db.mappings ==> m.userId != userId)
    && (forall k :: 0 <= k < |db.users| ==> !Auth.MatchesKey(db.users[k], Auth.NormalizeEmail(email)))
    && Auth.StoredKey(email) == Auth.NormalizeEmail(email)
  }

  /** A new active row whose trimmed, lower-cased email is `key` is the only
      match when no earlier row matched. */
  lemma NewUserIsFound(users: seq<UserRow>, row: UserRow, key: string)
    requires row.isActive && Auth.StoredKey(row.email) == key
    requires forall k :: 0 <= k < |users| ==> !Auth.MatchesKey(users[k], key)
    ensures Auth.ActiveMatches(users + [row], key) == [row]
  {
    FilterAppend(users, row, Auth.KeyMask(key));
    FilterEmpty(users, Auth.KeyMask(key));
  }

  /** What the provisioning writes leave in the identity tables. */
  lemma CommitProvisioning(db: Warehouse, p: Provisioning, row: UserRow, m: RoleMapping)
    requires |p.writes| >= 1 && p.writes[0] == UserWritten(row)
    requires |p.writes| >= 2 ==> p.writes[1] == RoleWritten(m)
    requires |p.writes| >= 3 ==> p.writes[2].AuditWritten? && |p.writes| == 3
    ensures Commit(db, p.writes).users == db.users + [row]
    ensures Commit(db, p.writes).roles == db.roles
    ensures Commit(db, p.writes).mappings == db.mappings + (if |p.writes| >= 2 then [m] else [])
  {
    var db1 := db.(users := db.users + [row]);
    assert Commit(db, p.writes) == Commit(db1, p.writes[1..]);
    if |p.writes| >= 2 {
      var db2 := db1.(mappings := db.mappings + [m]);
      assert Commit(db1, p.writes[1..]) == Commit(db2, p.writes[2..]);
      if |p.writes| == 3 {
        assert p.writes[2..][1..] == [];
      }
    }
  }

  /** When a USER_ID has exactly one user row and one mapping row, every
      joined row carries that user's email and name and the mapped role. */
  lemma JoinedUnique(db: Warehouse, uid: string, row: UserRow, m: RoleMapping, x: UserInfo)
    requires forall u :: u in db.users && u.userId == uid ==> u == row
    requires forall n :: n in db.mappings && n.userId == uid ==> n == m
    requires Auth.Joined(db, uid, x)
    ensures x.email == row.email && x.fullName == row.fullName && x.roleName == m.roleName
  {
    var u, n, r :| u in db.users && n in db.mappings && r in db.roles
      && u.userId == uid && n.userId == uid && n.roleName == r.roleName
      && x == Auth.JoinedRow(u, r);
  }

  /** The identity tables after a successful provisioning: the new row is the
      only active match for the email and the only user with its USER_ID, and
      the new mapping is the only mapping with it. */
  lemma ProvisionedTables(db: Warehouse, userId: string, key: string, row: UserRow, m: RoleMapping)
    requires forall u :: u in db.users ==> u.userId != userId
    requires forall n :: n in db.mappings ==> n.userId != userId
    requires forall k :: 0 <= k < |db.users| ==> !Auth.MatchesKey(db.users[k], key)
    requires row.userId == userId && Auth.StoredKey(row.email) == key && row.isActive && m.userId == userId
    ensures Auth.ActiveMatches(db.users + [row], key) == [row]
    ensures forall u :: u in db.users + [row] && u.userId == userId ==> u == row
    ensures forall n :: n in db.mappings + [m] && n.userId == userId ==> n == m
  {
    NewUserIsFound(db.users, row, key);
    SoleAfterAppend(db.users, row, userId, (u: UserRow) => u.userId);
    SoleAfterAppend(db.mappings, m, userId, (n: RoleMapping) => n.userId);
  }

  /** When no element of `s` has the id, `x` is the only one of `s + [x]`. */
  lemma SoleAfterAppend<T>(s: seq<T>, x: T, id: string, idOf: T -> string)
    requires forall y :: y in s ==> idOf(y) != id
    ensures forall y :: y in s + [x] && idOf(y) == id ==> y == x
  {
  }

  /** Signing in against the identity tables a fresh provisioning leaves. */
  lemma FreshRowSignsIn(db: Warehouse, failing: set<Stmt>, row: UserRow, m: RoleMapping, r: RoleRow,
                        email: string, password: string)
    requires UserLookup !in failing && RoleLookup !in failing
    requires Plain(Auth.NormalizeEmail(email)) && Plain(row.userId)
    requires Auth.ActiveMatches(db.users, Auth.NormalizeEmail(email)) == [row]
    requires row in db.users && m in db.mappings && r in db.roles
    requires m.userId == row.userId && r.roleName == m.roleName
    requires forall u :: u in db.users && u.userId == row.userId ==> u == row
    requires forall n :: n in db.mappings && n.userId == row.userId ==> n == m
    requires Strip(password) == Strip(row.password)
    ensures var o := Auth.Authenticate(Online(db, failing), email, password);
            o.SignedIn? && o.info.email == row.email && o.info.fullName == row.fullName && o.info.roleName == m.roleName
  {
    Auth.RoleJoinMeaning(db, row.userId, Auth.JoinedRow(row, r));
    var rows := Auth.RoleJoin(db, row.userId);
    Auth.RoleJoinMeaning(db, row.userId, rows[0]);
    JoinedUnique(db, row.userId, row, m, rows[0]);
    Auth.RoleStage(db, failing, Auth.NormalizeEmail(email), password);
  }

  /** A successfully provisioned identity whose values are plain can sign
      in with its email and password, and gets the role it was given. */
  lemma ProvisionedUserSignsIn(db: Warehouse, failing: set<Stmt>, userId: string, name: string, email: string,
                               dept: string, brand: string, role: string, password: string, admin: string,
                               host: Host, r: RoleRow)
    requires failing !! {UserInsert, RoleInsert, UserLookup, RoleLookup}
    requires PlainValues(userId, name, email, dept, brand, role, password)
    requires FreshIdentity(db, userId, email)
    requires r in db.roles && r.roleName == role
    ensures var p := Provision(Online(db, failing), userId, name, email, dept, brand, role, password, admin, host);
            var o := Auth.Authenticate(Online(Commit(db, p.writes), failing), email, password);
            p.ok && o.SignedIn? && o.info.email == email && o.info.fullName == name && o.info.roleName == role
  {
    var p := Provision(Online(db, failing), userId, name, email, dept, brand, role, password, admin, host);
    var row := NewUserRow(userId, name, email, dept, brand, password);
    var m := RoleMapping(userId, role);
    assert |p.writes| >= 2;
    CommitProvisioning(db, p, row, m);
    var db' := Commit(db, p.writes);
    ProvisionedTables(db, userId, Auth.NormalizeEmail(email), row, m);
    Auth.PlainKey(email);
    FreshRowSignsIn(db', failing, row, m, r, email, password);
  }

  /** A password with a quote or backslash that still makes a well-formed
      literal (ab''cd, pa\b1234) is stored as different text (ab'cd, pa with
      a backspace): provisioning succeeds, yet the new account is refused its
      own password. */
  lemma QuotedPasswordLocksOut(db: Warehouse, failing: set<Stmt>, userId: string, name: string, email: string,
                               dept: string, brand: string, role: string, password: string, admin: string,
                               host: Host)
    requires failing !! {UserInsert, RoleInsert, UserLookup}
    requires Plain(userId) && Plain(name) && Plain(email) && Plain(dept) && Plain(brand) && Plain(role)
    requires !Plain(password) && Verbatim(password).Some?
    requires FreshIdentity(db, userId, email)
    ensures var p := Provision(Online(db, failing), userId, name, email, dept, brand, role, password, admin, host);
            var o := Auth.Authenticate(Online(Commit(db, p.writes), failing), email, password);
            p.ok && o == Auth.WrongPassword
  {
    var p := Provision(Online(db, failing), userId, name, email, dept, brand, role, password, admin, host);
    var stored := Verbatim(password).value;
    var row := NewUserRow(userId, name, email, dept, brand, stored);
    assert StoredUser(userId, name, email, dept, brand, password) == Some(row);
    var m := RoleMapping(userId, role);
    assert |p.writes| >= 2;
    CommitProvisioning(db, p, row, m);
    NewUserIsFound(db.users, row, Auth.NormalizeEmail(email));
    VerbatimAltersQuoted(password);
    Auth.PlainKey(email);
    Auth.WrongPasswordOutcome(Commit(db, p.writes), failing, email, password);
  }

  /** A failing role insert leaves an active identity without a role: its
      correct email and password now meet the "no role" refusal. */
  lemma RoleFailureLeavesOrphan(db: Warehouse, failing: set<Stmt>, userId: string, name: string, email: string,
                                dept: string, brand: string, role: string, password: string, admin: string,
                                host: Host)
    requires failing !! {UserInsert, UserLookup, RoleLookup}
    requires RoleInsert in failing
    requires PlainValues(userId, name, email, dept, brand, role, password)
    requires FreshIdentity(db, userId, email)
    ensures var p := Provision(Online(db, failing), userId, name, email, dept, brand, role, password, admin, host);
            var o := Auth.Authenticate(Online(Commit(db, p.writes), failing), email, password);
            !p.ok && o == Auth.NoRoleMapped(userId)
  {
    var p := Provision(Online(db, failing), userId, name, email, dept, brand, role, password, admin, host);
    var row := NewUserRow(userId, name, email, dept, brand, password);
    CommitProvisioning(db, p, row, RoleMapping(userId, role));
    var db' := Commit(db, p.writes);
    NewUserIsFound(db.users, row, Auth.NormalizeEmail(email));
    var rows := Auth.RoleJoin(db', userId);
    if rows != [] {
      Auth.RoleJoinMeaning(db', userId, rows[0]);
      assert false;
    }
    Auth.PlainKey(email);
    Auth.NoRoleOutcome(db', failing, Auth.NormalizeEmail(email), password);
  }

  /** An edited cell as `updated_fields` carries it: a string, or the
      checkbox's boolean. */
  datatype Value = Text(s: string) | Flag(b: bool)

  datatype Field = Field(column: string, value: Value)

  /** Strings are single-quoted (not escaped); other values are written bare,
      as Python prints them. */
  function ValueSql(v: Value): string {
    match v
    case Text(s) => SqlLiteral(s)
    case Flag(b) => if b then "True" else "False"
  }

  /** `f"{col} = '{val}'"` or `f"{col} = {val}"`. */
  function Assignment(f: Field): string {
    f.column + " = " + ValueSql(f.value)
  }

  function Assignments(fields: seq<Field>): (r: seq<string>)
    ensures |r| == |fields|
    ensures forall k :: 0 <= k < |r| ==> r[k] == Assignment(fields[k])
  {
    if fields == [] then [] else [Assignment(fields[0])] + Assignments(fields[1..])
  }

  /** The SET clause: one assignment per updated field, joined by ", ", so
      that comma-free assignments read back one by one; no fields leave the
      clause empty. */
  function SetClause(fields: seq<Field>): (r: string)
    ensures fields == [] ==> r == ""
    ensures fields != [] && (forall k :: 0 <= k < |fields| ==> ',' !in Assignment(fields[k])) ==>
              SplitList(r) == Assignments(fields)
  {
    if fields == [] then ""
    else
      CommaFreeListReadsBack(Assignments(fields));
      Join(Assignments(fields), ", ")
  }

  /** The clause grows by one assignment per field, in field order. */
  lemma SetClauseSnoc(fields: seq<Field>, f: Field)
    requires fields != []
    ensures SetClause(fields + [f]) == SetClause(fields) + ", " + Assignment(f)
    ensures SetClause([f]) == Assignment(f)
  {
    assert Assignments(fields + [f]) == Assignments(fields) + [Assignment(f)];
    JoinSnoc(Assignments(fields), Assignment(f), ", ");
  }

  const UpdateHead := "UPDATE DIM_USERS SET "

  const UpdateWhere := " WHERE USER_ID = "

  /** The update statement: the SET clause after the head, and a WHERE
      clause whose trailing literal denotes the USER_ID the warehouse
      compares against. */
  function UpdateSql(userId: string, fields: seq<Field>): (r: string)
    ensures |r| == |UpdateHead| + |SetClause(fields)| + |UpdateWhere| + |userId| + 2
    ensures StartsWith(r, UpdateHead)
    ensures r[|UpdateHead|..|UpdateHead| + |SetClause(fields)|] == SetClause(fields)
    ensures ReadLiteral(r[|r| - |userId| - 2..]) == Verbatim(userId)
  {
    SqlFrame(UpdateHead, SetClause(fields), UpdateWhere, userId);
    UpdateHead + SetClause(fields) + UpdateWhere + SqlLiteral(userId)
  }

  /** Where the parts of `head + body + where + '{id}'` sit. */
  lemma SqlFrame(head: string, body: string, where: string, id: string)
    ensures var r := head + body + where + SqlLiteral(id);
      && |r| == |head| + |body| + |where| + |id| + 2
      && StartsWith(r, head)
      && r[|head|..|head| + |body|] == body
      && r[|r| - |id| - 2..] == SqlLiteral(id)
      && ReadLiteral(r[|r| - |id| - 2..]) == Verbatim(id)
  {
    var r := head + body + where + SqlLiteral(id);
    assert r[|r| - |id| - 2..] == SqlLiteral(id);
    assert r[..|head|] == head;
    assert r[|head|..|head| + |body|] == body;
  }

  /** The DIM_USERS columns that hold text. */
  predicate IsTextColumn(column: string) {
    || column == "USER_ID" || column == "FULL_NAME" || column == "EMAIL"
    || column == "DEPARTMENT" || column == "BRAND_ACCESS" || column == "PASSWORD"
  }

  /** An assignment the warehouse accepts: the checkbox's boolean into
      IS_ACTIVE, or text that makes a well-formed literal into a text column. */
  predicate Assignable(f: Field) {
    match f.value
    case Flag(_) => f.column == "IS_ACTIVE"
    case Text(s) => IsTextColumn(f.column) && Verbatim(s).Some?
  }

  predicate AllAssignable(fields: seq<Field>) {
    forall k :: 0 <= k < |fields| ==> Assignable(fields[k])
  }

  /** One assignment applied to a row; a text value is stored as its literal
      reads. */
  function Assign(u: UserRow, f: Field): UserRow
    requires Assignable(f)
  {
    match f.value
    case Flag(b) => u.(isActive := b)
    case Text(s) =>
      var t := Verbatim(s).value;
      if f.column == "USER_ID" then u.(userId := t)
      else if f.column == "FULL_NAME" then u.(fullName := t)
      else if f.column == "EMAIL" then u.(email := t)
      else if f.column == "DEPARTMENT" then u.(department := t)
      else if f.column == "BRAND_ACCESS" then u.(brandAccess := t)
      else u.(password := t)
  }

  /** The assignments of a SET clause applied in order: a column no field
      names keeps its value, and a trailing IS_ACTIVE assignment decides the
      status. */
  function AssignAll(u: UserRow, fields: seq<Field>): (r: UserRow)
    requires AllAssignable(fields)
    ensures (forall k :: 0 <= k < |fields| ==> fields[k].column != "IS_ACTIVE") ==> r.isActive == u.isActive
    ensures (forall k :: 0 <= k < |fields| ==> fields[k].column != "PASSWORD") ==> r.password == u.password
    ensures (forall k :: 0 <= k < |fields| ==> fields[k].column != "EMAIL") ==> r.email == u.email
    ensures (forall k :: 0 <= k < |fields| ==> fields[k].column != "USER_ID") ==> r.userId == u.userId
    ensures fields != [] && fields[|fields| - 1].value.Flag? ==> r.isActive == fields[|fields| - 1].value.b
    decreases |fields|
  {
    if fields == [] then u
    else Assign(AssignAll(u, fields[..|fields| - 1]), fields[|fields| - 1])
  }

  /** DIM_USERS after the update: every row whose USER_ID is `userId` takes
      the assignments, and no other row changes. */
  function UpdatedUsers(users: seq<UserRow>, userId: string, fields: seq<Field>): (r: seq<UserRow>)
    requires AllAssignable(fields)
    ensures |r| == |users|
    ensures forall k :: 0 <= k < |r| && users[k].userId != userId ==> r[k] == users[k]
    ensures forall k :: 0 <= k < |r| && users[k].userId == userId ==> r[k] == AssignAll(users[k], fields)
  {
    seq(|users|, k requires 0 <= k < |users| => if users[k].userId == userId then AssignAll(users[k], fields) else users[k])
  }

  /** Whether the update statement is accepted: at least one assignment (an
      empty SET clause is a syntax error), each one assignable, and a
      well-formed USER_ID literal. */
  predicate UpdateAccepted(userId: string, fields: seq<Field>) {
    fields != [] && AllAssignable(fields) && Verbatim(userId).Some?
  }

  /** `users` is DIM_USERS after a successful update. */
  datatype Update = Update(ok: bool, sql: Option<string>, users: Option<seq<UserRow>>, audit: seq<AuditEntry>)

  /** `update_user_in_snowflake(user_id, updated_fields, admin_email)`. */
  function UpdateUser(link: Link, userId: string, fields: seq<Field>, adminEmail: string, host: Host): (u: Update)
    ensures link.Offline? ==> u == Update(false, None, None, [])
    ensures link.Online? ==> u.sql == Some(UpdateSql(userId, fields))
    ensures u.ok <==> link.Runs(UserUpdate) && UpdateAccepted(userId, fields)
    ensures u.users.Some? <==> u.ok
    ensures u.ok ==> u.users == Some(UpdatedUsers(link.db.users, Verbatim(userId).value, fields))
    ensures u.audit != [] ==> u.ok && |u.audit| == 1 && u.audit[0].actionType == "UPDATE_USER"
    ensures u.audit != [] && '\\' !in userId ==> u.audit[0].details == UpdatedTag + userId
    ensures u.audit != [] && Plain(adminEmail) ==> u.audit[0].changedBy == adminEmail
    ensures (u.ok && link.Runs(AuditInsert) && Plain(adminEmail)
             && Plain(host.ip) && Plain(host.name) && '\\' !in userId) ==> u.audit != []
  {
    if link.Offline? then Update(false, None, None, [])
    else if !link.Runs(UserUpdate) || !UpdateAccepted(userId, fields) then
      Update(false, Some(UpdateSql(userId, fields)), None, [])
    else
      ActionTypesPlain();
      Update(true, Some(UpdateSql(userId, fields)),
             Some(UpdatedUsers(link.db.users, Verbatim(userId).value, fields)),
             LogAdminAction(link, adminEmail, "UPDATE_USER", UpdatedTag + userId, host))
  }

  /** A USER_ID holding an escaped quote (a\'b) makes a well-formed UPDATE
      literal, but that literal denotes a'b: the UPDATE runs without error
      yet leaves the row holding a\'b unchanged. Once the quote is doubled
      for the audit details, the backslash escapes the first quote and the
      second ends the literal, so nothing is logged either: the edit is lost
      silently. */
  lemma EscapedQuoteIdGoesUnlogged(link: Link, fields: seq<Field>, adminEmail: string, host: Host)
    requires link.Runs(UserUpdate) && fields != [] && AllAssignable(fields)
    ensures var u := UpdateUser(link, "a\\'b", fields, adminEmail, host);
            u.ok && u.audit == [] && |u.users.value| == |link.db.users|
            && forall k :: 0 <= k < |link.db.users| && link.db.users[k].userId == "a\\'b" ==>
                 u.users.value[k] == link.db.users[k]
  {
    EscapedQuoteRead();
    EscapedQuoteDoubled("ID: a", "b");
    assert UpdatedTag + "a\\'b" == "ID: a" + "\\'" + "b";
    BrokenDetailsUnlogged(link, adminEmail, "UPDATE_USER", UpdatedTag + "a\\'b", host);
    assert "a\\'b" != "a'b" by { assert |"a\\'b"| != |"a'b"|; }
  }

  /** Unticking "Active Status" locks the account out: when every active row
      matching the normalised email `key` has USER_ID `userId`, deactivating
      that USER_ID succeeds and sign-in then finds no user. */
  lemma DeactivationLocksOut(db: Warehouse, failing: set<Stmt>, userId: string, key: string, password: string,
                             adminEmail: string, host: Host)
    requires UserLookup !in failing && UserUpdate !in failing
    requires Plain(key) && Plain(userId)
    requires forall j :: 0 <= j < |db.users| && Auth.MatchesKey(db.users[j], key) ==> db.users[j].userId == userId
    ensures var u := UpdateUser(Online(db, failing), userId, [Field("IS_ACTIVE", Flag(false))], adminEmail, host);
            u.ok && Auth.Decide(Online(db.(users := u.users.value), failing), key, password) == Auth.UnknownUser
  {
    var fields := [Field("IS_ACTIVE", Flag(false))];
    assert Verbatim(userId) == Some(userId);
    assert UpdateAccepted(userId, fields);
    var after := UpdatedUsers(db.users, userId, fields);
    forall j | 0 <= j < |after|
      ensures !Auth.MatchesKey(after[j], key)
    {
      if db.users[j].userId == userId {
        assert !AssignAll(db.users[j], fields).isActive;
      } else {
        assert after[j] == db.users[j];
      }
    }
    Auth.NoMatchIsUnknown(db.(users := after), failing, key, password);
  }
}
