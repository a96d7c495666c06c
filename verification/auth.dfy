/**
  The sign-in decision of `authenticate_user` (modules/auth.py): normalise the
  email, find the first active DIM_USERS row for it, compare passwords, then
  join USER_ROLE_MAPPING and DIM_ROLES for that row's USER_ID.
 */
module Auth {
  import opened Strings
  import opened Seqs
  import opened Tables
  import opened Literals

  /** How a sign-in attempt ends. */
  datatype AuthOutcome =
    | NoSession                      // no warehouse session: nothing is looked up
    | LookupRaised                   // the identity query raised; it is not caught
    | UnknownUser                    // no active row for the normalised email
    | WrongPassword                  // silent failure
    | NoRoleMapped(userId: string)   // failure with a "contact Super Admin" warning
    | RoleQueryError                 // the role query raised; reported and swallowed
    | SignedIn(info: UserInfo)

  /** What `authenticate_user` hands back: a value, or an exception. */
  datatype Returned = Returns(value: Option<UserInfo>) | Raises

  /** `str(email).strip().lower()`: no ASCII capital and no surrounding
      whitespace remains, and the quotes and backslashes of the email are all
      kept. */
  function NormalizeEmail(email: string): (r: string)
    ensures |r| <= |email|
    ensures forall k :: 0 <= k < |r| ==> !('A' <= r[k] <= 'Z')
    ensures r == [] || (r[0] !in PyWhitespace && r[|r| - 1] !in PyWhitespace)
    ensures CharCount(r, '\'') == CharCount(email, '\'')
    ensures CharCount(r, '\\') == CharCount(email, '\\')
  {
    SpecialsNotWhitespace();
    CharCountNormalized(email, '\'');
    CharCountNormalized(email, '\\');
    StripLowerShape(email);
    Lower(Strip(email))
  }

  /** `LOWER(TRIM(EMAIL))` on the stored email. */
  function StoredKey(email: string): string {
    Lower(SqlTrim(email))
  }

  /** The identity query's WHERE clause. */
  predicate MatchesKey(u: UserRow, key: string) {
    u.isActive && StoredKey(u.email) == key
  }

  /** The identity query's WHERE clause as a row mask. */
  function KeyMask(key: string): UserRow -> bool {
    u => MatchesKey(u, key)
  }

  /** The rows the identity query returns: the active rows whose trimmed,
      lower-cased email is `key`, all of them, in table order. */
  function ActiveMatches(users: seq<UserRow>, key: string): (r: seq<UserRow>)
    ensures forall k :: 0 <= k < |r| ==> MatchesKey(r[k], key) && r[k] in users
    ensures forall k :: 0 <= k < |users| && MatchesKey(users[k], key) ==> users[k] in r
    ensures IsSubsequence(r, users)
    ensures r == [] <==> forall k :: 0 <= k < |users| ==> !MatchesKey(users[k], key)
  {
    FilterEmpty(users, KeyMask(key));
    FilterIsSubsequence(users, KeyMask(key));
    Filter(users, KeyMask(key))
  }

  /** The dictionary the role join builds from a user row and a role row. */
  function JoinedRow(u: UserRow, r: RoleRow): UserInfo {
    UserInfo(u.email, u.fullName, r.roleName, r.canEditUsers)
  }

  function JoinRoles(u: UserRow, m: RoleMapping, roles: seq<RoleRow>): seq<UserInfo> {
    if roles == [] then []
    else (if roles[0].roleName == m.roleName then [JoinedRow(u, roles[0])] else [])
         + JoinRoles(u, m, roles[1..])
  }

  function JoinMappings(u: UserRow, ms: seq<RoleMapping>, roles: seq<RoleRow>): seq<UserInfo> {
    if ms == [] then []
    else (if ms[0].userId == u.userId then JoinRoles(u, ms[0], roles) else [])
         + JoinMappings(u, ms[1..], roles)
  }

  function JoinUsers(us: seq<UserRow>, ms: seq<RoleMapping>, roles: seq<RoleRow>, uid: string): seq<UserInfo> {
    if us == [] then []
    else (if us[0].userId == uid then JoinMappings(us[0], ms, roles) else [])
         + JoinUsers(us[1..], ms, roles, uid)
  }

  /** The rows of `DIM_USERS U JOIN USER_ROLE_MAPPING M ON U.USER_ID = M.USER_ID
      JOIN DIM_ROLES R ON M.ROLE_NAME = R.ROLE_NAME WHERE U.USER_ID = uid`,
      enumerated users first, then mappings, then roles. */
  function RoleJoin(db: Warehouse, uid: string): seq<UserInfo> {
    JoinUsers(db.users, db.mappings, db.roles, uid)
  }

  /** The reference meaning of the join: some user row, mapping row and role
      row agree on USER_ID and ROLE_NAME and produce `x`. */
  ghost predicate Joined(db: Warehouse, uid: string, x: UserInfo) {
    exists u, m, r :: u in db.users && m in db.mappings && r in db.roles
      && u.userId == uid && m.userId == uid && m.roleName == r.roleName
      && x == JoinedRow(u, r)
  }

  lemma {:induction false} JoinRolesMembers(u: UserRow, m: RoleMapping, roles: seq<RoleRow>, x: UserInfo)
    ensures x in JoinRoles(u, m, roles) <==>
            exists r :: r in roles && r.roleName == m.roleName && x == JoinedRow(u, r)
  {
    if roles != [] {
      JoinRolesMembers(u, m, roles[1..], x);
      assert roles == [roles[0]] + roles[1..];
    }
  }

  lemma {:induction false} JoinMappingsMembers(u: UserRow, ms: seq<RoleMapping>, roles: seq<RoleRow>, x: UserInfo)
    ensures x in JoinMappings(u, ms, roles) <==>
            exists m, r :: m in ms && r in roles && m.userId == u.userId
                           && r.roleName == m.roleName && x == JoinedRow(u, r)
  {
    if ms != [] {
      JoinMappingsMembers(u, ms[1..], roles, x);
      JoinRolesMembers(u, ms[0], roles, x);
      assert ms == [ms[0]] + ms[1..];
    }
  }

  lemma {:induction false} JoinUsersMembers(us: seq<UserRow>, ms: seq<RoleMapping>, roles: seq<RoleRow>,
                                            uid: string, x: UserInfo)
    ensures x in JoinUsers(us, ms, roles, uid) <==>
            exists u, m, r :: u in us && m in ms && r in roles && u.userId == uid && m.userId == uid
                              && m.roleName == r.roleName && x == JoinedRow(u, r)
  {
    if us != [] {
      var rest := us[1..];
      var head := if us[0].userId == uid then JoinMappings(us[0], ms, roles) else [];
      assert JoinUsers(us, ms, roles, uid) == head + JoinUsers(rest, ms, roles, uid);
      assert us == [us[0]] + rest;
      JoinUsersMembers(rest, ms, roles, uid, x);
      JoinMappingsMembers(us[0], ms, roles, x);
      if x in JoinUsers(us, ms, roles, uid) {
        if x in head {
          var m, r :| m in ms && r in roles && m.userId == us[0].userId
                      && r.roleName == m.roleName && x == JoinedRow(us[0], r);
          assert us[0] in us;
        } else {
          var u, m, r :| u in rest && m in ms && r in roles && u.userId == uid && m.userId == uid
                         && m.roleName == r.roleName && x == JoinedRow(u, r);
          assert u in us;
        }
      }
      if exists u, m, r :: u in us && m in ms && r in roles && u.userId == uid && m.userId == uid
                           && m.roleName == r.roleName && x == JoinedRow(u, r) {
        var u, m, r :| u in us && m in ms && r in roles && u.userId == uid && m.userId == uid
                       && m.roleName == r.roleName && x == JoinedRow(u, r);
        if u != us[0] {
          assert u in rest;
        }
      }
    }
  }

  /** The join returns exactly the rows its reference meaning admits. */
  lemma RoleJoinMeaning(db: Warehouse, uid: string, x: UserInfo)
    ensures x in RoleJoin(db, uid) <==> Joined(db, uid, x)
  {
    JoinUsersMembers(db.users, db.mappings, db.roles, uid, x);
  }

  /** The identity query runs: there is a session, the statement does not
      fail, and the normalised email placed between quotes is a well-formed
      literal. */
  predicate LookupRuns(link: Link, key: string) {
    link.Runs(UserLookup) && Verbatim(key).Some?
  }

  /** The rows the identity query returns: the warehouse compares stored
      emails with the text the literal denotes. */
  function Found(link: Link, key: string): seq<UserRow>
    requires LookupRuns(link, key)
  {
    ActiveMatches(link.db.users, Verbatim(key).value)
  }

  /** The identity query found a row and its stripped password agrees. */
  predicate PasswordAgrees(link: Link, key: string, password: string) {
    LookupRuns(link, key) && Found(link, key) != [] && Strip(password) == Strip(Found(link, key)[0].password)
  }

  /** The USER_ID of the first row the identity query returns. */
  function MatchedId(link: Link, key: string): string
    requires LookupRuns(link, key) && Found(link, key) != []
  {
    Found(link, key)[0].userId
  }

  /** The role query runs: it does not fail and the matched USER_ID placed
      between quotes is a well-formed literal. */
  predicate RoleQueryRuns(link: Link, key: string, password: string) {
    PasswordAgrees(link, key, password) && link.Runs(RoleLookup) && Verbatim(MatchedId(link, key)).Some?
  }

  /** The rows the role query returns. */
  function RoleRows(link: Link, key: string, password: string): seq<UserInfo>
    requires RoleQueryRuns(link, key, password)
  {
    RoleJoin(link.db, Verbatim(MatchedId(link, key)).value)
  }

  /** The decision of `authenticate_user` once the email is normalised to
      `key`: each outcome and exactly the circumstances that produce it. */
  function Decide(link: Link, key: string, password: string): (o: AuthOutcome)
    ensures o == NoSession <==> link.Offline?
    ensures o == LookupRaised <==> link.Online? && !LookupRuns(link, key)
    ensures o == UnknownUser <==> LookupRuns(link, key) && Found(link, key) == []
    ensures o == WrongPassword <==>
      LookupRuns(link, key) && Found(link, key) != [] && !PasswordAgrees(link, key, password)
    ensures o == RoleQueryError <==> PasswordAgrees(link, key, password) && !RoleQueryRuns(link, key, password)
    ensures o.NoRoleMapped? <==> RoleQueryRuns(link, key, password) && RoleRows(link, key, password) == []
    ensures o.SignedIn? <==> RoleQueryRuns(link, key, password) && RoleRows(link, key, password) != []
    ensures o.NoRoleMapped? ==> o.userId == MatchedId(link, key)
    ensures o.SignedIn? ==>
      o.info == RoleRows(link, key, password)[0] && Joined(link.db, Verbatim(MatchedId(link, key)).value, o.info)
  {
    if link.Offline? then NoSession
    else if !LookupRuns(link, key) then LookupRaised
    else if Found(link, key) == [] then UnknownUser
    else if !PasswordAgrees(link, key, password) then WrongPassword
    else if !RoleQueryRuns(link, key, password) then RoleQueryError
    else
      var rows := RoleRows(link, key, password);
      if rows == [] then NoRoleMapped(MatchedId(link, key))
      else
        RoleJoinMeaning(link.db, Verbatim(MatchedId(link, key)).value, rows[0]);
        SignedIn(rows[0])
  }

  /** `authenticate_user(email, password_input)`. An email without
      backslashes and with an odd number of quotes (o'neil@x.com) always
      breaks the identity query, which raises out of the call; a plain email
      (no quote, no backslash) never does; and a sign-in with a plain email
      is backed by an active row whose trimmed,
      lower-cased email is the normalised one and whose stripped password
      agrees. */
  function Authenticate(link: Link, email: string, password: string): (o: AuthOutcome)
    ensures link.Offline? <==> o == NoSession
    ensures link.Online? && CharCount(email, '\'') % 2 == 1 && '\\' !in email ==> o == LookupRaised
    ensures link.Online? && Plain(email) ==> (o == LookupRaised <==> UserLookup in link.failing)
    ensures link.Online? && o.SignedIn? && Plain(email) ==>
      exists u :: u in link.db.users && u.isActive && StoredKey(u.email) == NormalizeEmail(email)
                  && Strip(u.password) == Strip(password)
  {
    PlainLookup(link, NormalizeEmail(email), password);
    OddQuoteKey(email);
    PlainKey(email);
    Decide(link, NormalizeEmail(email), password)
  }

  /** An email without backslashes and with an odd number of quotes
      normalises to a key that never makes a well-formed literal. */
  lemma OddQuoteKey(email: string)
    ensures CharCount(email, '\'') % 2 == 1 && '\\' !in email ==> Verbatim(NormalizeEmail(email)) == None
  {
    if CharCount(email, '\'') % 2 == 1 && '\\' !in email {
      CharCountZero(email, '\\');
      CharCountZero(NormalizeEmail(email), '\\');
      OddQuotesBreak(NormalizeEmail(email));
    }
  }

  lemma PlainLookup(link: Link, key: string, password: string)
    ensures link.Online? && Plain(key) ==>
              (Decide(link, key, password) == LookupRaised <==> UserLookup in link.failing)
    ensures link.Online? && Plain(key) && Decide(link, key, password).SignedIn? ==>
      exists u :: u in link.db.users && MatchesKey(u, key) && Strip(u.password) == Strip(password)
  {
    if link.Online? && Plain(key) && Decide(link, key, password).SignedIn? {
      assert Verbatim(key) == Some(key);
      var u := Found(link, key)[0];
      assert u in link.db.users && MatchesKey(u, key);
    }
  }

  /** The value the caller sees: `None` for every handled failure. */
  function ToReturned(o: AuthOutcome): (r: Returned)
    ensures r == Raises <==> o == LookupRaised
    ensures r.Returns? && r.value.Some? <==> o.SignedIn?
    ensures o.SignedIn? ==> r == Returns(Some(o.info))
  {
    match o
    case LookupRaised => Raises
    case SignedIn(info) => Returns(Some(info))
    case _ => Returns(None)
  }

  /** Only a missing role mapping produces the administrator-contact warning. */
  predicate WarnsNoRole(o: AuthOutcome) {
    o.NoRoleMapped?
  }

  /** Emails that differ only in ASCII letter case or in surrounding whitespace
      lead to the same outcome. */
  lemma EmailCaseAndPaddingIrrelevant(link: Link, a: string, e: string, b: string, e': string, password: string)
    requires AllIn(a, PyWhitespace) && AllIn(b, PyWhitespace)
    requires Lower(e) == Lower(e')
    ensures Authenticate(link, a + e + b, password) == Authenticate(link, e', password)
  {
    TrimIgnoresPadding(a, e, b, PyWhitespace);
    LowerStripCommute(e);
    LowerStripCommute(e');
    assert NormalizeEmail(a + e + b) == NormalizeEmail(e');
  }

  /** A plain email normalises to a plain key. */
  lemma PlainKey(email: string)
    ensures Plain(email) ==> Plain(NormalizeEmail(email))
  {
    PlainSpecials(email);
    PlainSpecials(NormalizeEmail(email));
  }

  /** A correct email with a wrong password fails before the role tables are
      consulted: the mapping and role tables, and whether the role query would
      raise, make no difference. */
  lemma WrongPasswordIgnoresRoles(db: Warehouse, db': Warehouse, failing: set<Stmt>, failing': set<Stmt>,
                                  email: string, password: string)
    requires db'.users == db.users
    requires UserLookup !in failing && UserLookup !in failing'
    requires Plain(NormalizeEmail(email))
    requires var found := ActiveMatches(db.users, NormalizeEmail(email));
             found != [] && Strip(password) != Strip(found[0].password)
    ensures Authenticate(Online(db, failing), email, password) == WrongPassword
    ensures Authenticate(Online(db', failing'), email, password) == WrongPassword
  {
    WrongPasswordOutcome(db, failing, email, password);
    WrongPasswordOutcome(db', failing', email, password);
  }

  lemma WrongPasswordOutcome(db: Warehouse, failing: set<Stmt>, email: string, password: string)
    requires UserLookup !in failing
    requires Plain(NormalizeEmail(email))
    requires var found := ActiveMatches(db.users, NormalizeEmail(email));
             found != [] && Strip(password) != Strip(found[0].password)
    ensures Authenticate(Online(db, failing), email, password) == WrongPassword
  {
    assert Verbatim(NormalizeEmail(email)) == Some(NormalizeEmail(email));
  }

  /** Deactivating the only row for an email and deleting it are
      indistinguishable to the caller: both give `UnknownUser`. */
  lemma DeactivatedLikeMissing(db: Warehouse, failing: set<Stmt>, k: nat, email: string, password: string)
    requires UserLookup !in failing
    requires Plain(NormalizeEmail(email))
    requires k < |db.users|
    requires forall j :: 0 <= j < |db.users| && j != k ==> !MatchesKey(db.users[j], NormalizeEmail(email))
    ensures var off := db.(users := db.users[k := db.users[k].(isActive := false)]);
            Authenticate(Online(off, failing), email, password) == UnknownUser
    ensures var gone := db.(users := db.users[..k] + db.users[k + 1..]);
            Authenticate(Online(gone, failing), email, password) == UnknownUser
  {
    DeactivatedIsUnknown(db, failing, k, email, password);
    DeletedIsUnknown(db, failing, k, email, password);
  }

  lemma DeactivatedIsUnknown(db: Warehouse, failing: set<Stmt>, k: nat, email: string, password: string)
    requires UserLookup !in failing
    requires Plain(NormalizeEmail(email))
    requires k < |db.users|
    requires forall j :: 0 <= j < |db.users| && j != k ==> !MatchesKey(db.users[j], NormalizeEmail(email))
    ensures var off := db.(users := db.users[k := db.users[k].(isActive := false)]);
            Authenticate(Online(off, failing), email, password) == UnknownUser
  {
    var key := NormalizeEmail(email);
    var off := db.users[k := db.users[k].(isActive := false)];
    forall j | 0 <= j < |off|
      ensures !MatchesKey(off[j], key)
    {
    }
    NoMatchIsUnknown(db.(users := off), failing, key, password);
  }

  lemma DeletedIsUnknown(db: Warehouse, failing: set<Stmt>, k: nat, email: string, password: string)
    requires UserLookup !in failing
    requires Plain(NormalizeEmail(email))
    requires k < |db.users|
    requires forall j :: 0 <= j < |db.users| && j != k ==> !MatchesKey(db.users[j], NormalizeEmail(email))
    ensures var gone := db.(users := db.users[..k] + db.users[k + 1..]);
            Authenticate(Online(gone, failing), email, password) == UnknownUser
  {
    var key := NormalizeEmail(email);
    var gone := db.users[..k] + db.users[k + 1..];
    forall j | 0 <= j < |gone|
      ensures !MatchesKey(gone[j], key)
    {
      if j < k {
        assert gone[j] == db.users[j];
      } else {
        assert gone[j] == db.users[j + 1];
      }
    }
    NoMatchIsUnknown(db.(users := gone), failing, key, password);
  }

  /** With no active row for a plain key the caller meets `UnknownUser`. */
  lemma NoMatchIsUnknown(db: Warehouse, failing: set<Stmt>, key: string, password: string)
    requires UserLookup !in failing && Plain(key)
    requires forall j :: 0 <= j < |db.users| ==> !MatchesKey(db.users[j], key)
    ensures Decide(Online(db, failing), key, password) == UnknownUser
  {
    assert Verbatim(key) == Some(key);
  }

  /** For a plain email and USER_ID, the role join runs with the USER_ID
      of the first active matching row, and a successful sign-in returns the
      first joined row. */
  lemma SignInUsesFirstMatch(db: Warehouse, failing: set<Stmt>, email: string, password: string)
    requires Authenticate(Online(db, failing), email, password).SignedIn?
    requires Plain(NormalizeEmail(email))
    requires Plain(ActiveMatches(db.users, NormalizeEmail(email))[0].userId)
    ensures var u := ActiveMatches(db.users, NormalizeEmail(email))[0];
            var rows := RoleJoin(db, u.userId);
            rows != [] && Authenticate(Online(db, failing), email, password).info == rows[0]
  {
    var key := NormalizeEmail(email);
    assert Verbatim(key) == Some(key);
    assert UserLookup !in failing && RoleLookup !in failing;
    RoleStage(db, failing, key, password);
  }

  /** A correct email and password without a role mapping is a failure with
      its own warning, unlike the silent wrong-password failure, though both
      return `None`. */
  lemma NoRoleIsDistinct(db: Warehouse, failing: set<Stmt>, email: string, password: string)
    requires UserLookup !in failing && RoleLookup !in failing
    requires Plain(NormalizeEmail(email))
    requires var found := ActiveMatches(db.users, NormalizeEmail(email));
             found != [] && Strip(password) == Strip(found[0].password) && Plain(found[0].userId)
             && forall m, r :: m in db.mappings && r in db.roles ==>
                  !(m.userId == found[0].userId && m.roleName == r.roleName)
    ensures var o := Authenticate(Online(db, failing), email, password);
            o.NoRoleMapped? && WarnsNoRole(o) && ToReturned(o) == Returns(None)
            && !WarnsNoRole(WrongPassword) && ToReturned(WrongPassword) == Returns(None)
  {
    NoRoleAuthenticate(db, failing, email, password);
    NoRoleSignals(Authenticate(Online(db, failing), email, password));
  }

  lemma NoRoleSignals(o: AuthOutcome)
    requires o.NoRoleMapped?
    ensures WarnsNoRole(o) && ToReturned(o) == Returns(None)
    ensures !WarnsNoRole(WrongPassword) && ToReturned(WrongPassword) == Returns(None)
  {
  }

  lemma NoRoleAuthenticate(db: Warehouse, failing: set<Stmt>, email: string, password: string)
    requires UserLookup !in failing && RoleLookup !in failing
    requires Plain(NormalizeEmail(email))
    requires var found := ActiveMatches(db.users, NormalizeEmail(email));
             found != [] && Strip(password) == Strip(found[0].password) && Plain(found[0].userId)
             && forall m, r :: m in db.mappings && r in db.roles ==>
                  !(m.userId == found[0].userId && m.roleName == r.roleName)
    ensures Authenticate(Online(db, failing), email, password).NoRoleMapped?
  {
    var key := NormalizeEmail(email);
    var u := ActiveMatches(db.users, key)[0];
    NoMappingNoRows(db, u.userId);
    NoRoleOutcome(db, failing, key, password);
  }

  lemma NoRoleOutcome(db: Warehouse, failing: set<Stmt>, key: string, password: string)
    requires UserLookup !in failing && RoleLookup !in failing && Plain(key)
    requires var found := ActiveMatches(db.users, key);
             found != [] && Strip(password) == Strip(found[0].password) && Plain(found[0].userId)
             && RoleJoin(db, found[0].userId) == []
    ensures Decide(Online(db, failing), key, password) == NoRoleMapped(ActiveMatches(db.users, key)[0].userId)
  {
    RoleStage(db, failing, key, password);
  }

  /** Past the password check, for a plain key and USER_ID, the outcome
      depends only on the role join. */
  lemma RoleStage(db: Warehouse, failing: set<Stmt>, key: string, password: string)
    requires UserLookup !in failing && RoleLookup !in failing && Plain(key)
    requires var found := ActiveMatches(db.users, key);
             found != [] && Strip(password) == Strip(found[0].password) && Plain(found[0].userId)
    ensures var u := ActiveMatches(db.users, key)[0];
            var rows := RoleJoin(db, u.userId);
            Decide(Online(db, failing), key, password) == if rows == [] then NoRoleMapped(u.userId) else SignedIn(rows[0])
  {
    var link := Online(db, failing);
    assert Verbatim(key) == Some(key);
    assert LookupRuns(link, key);
    assert Found(link, key) == ActiveMatches(db.users, key);
    assert PasswordAgrees(link, key, password);
    var uid := MatchedId(link, key);
    assert Verbatim(uid) == Some(uid);
    assert RoleQueryRuns(link, key, password);
    assert RoleRows(link, key, password) == RoleJoin(db, uid);
  }

  /** Without a mapping to an existing role the join is empty. */
  lemma NoMappingNoRows(db: Warehouse, uid: string)
    requires forall m, r :: m in db.mappings && r in db.roles ==> !(m.userId == uid && m.roleName == r.roleName)
    ensures RoleJoin(db, uid) == []
  {
    var rows := RoleJoin(db, uid);
    if rows != [] {
      RoleJoinMeaning(db, uid, rows[0]);
      assert false;
    }
  }
}
