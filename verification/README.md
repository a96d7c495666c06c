# DS Admin Portal, modelled in Dafny

This project models the DS Group admin portal, a Streamlit application over a
Snowflake warehouse. It covers the following parts:

- **Sign-in.** `authenticate_user` normalises the typed email and looks up the
  first active DIM_USERS row for it. It then compares the stripped passwords
  and joins USER_ROLE_MAPPING and DIM_ROLES for that row's USER_ID. Each
  outcome is modelled: no session, an uncaught lookup failure, an unknown
  user, a wrong password, no role (with its warning), a role-query error and
  success.
- **The session and navigation** of `app.py`. The two session keys are
  initialised on every run. The model covers sign-in, sign-out and the page
  list a signed-in user is offered. It also covers every session reachable
  through any sequence of runs, sign-ins and sign-outs.
- **The page gates.** The Dashboard and pages 2 and 3 only require a user record. Pages 4, 5
  and 6 also require CAN_EDIT_USERS, and they raise on a present `None`
  record.
- **The write paths of `modules/database.py`.** These are the audit insert
  (only the details are quote-escaped), user provisioning (three statements,
  not transactional) and the user update.
- **User management.** The directory, its metrics, the search and department
  filters, and the commit loop over edited rows of the filtered view.
- **Security audit.** The newest-first log, its metrics (last 24 hours, unique
  operators, critical events) and the event, operator and date filters.
- **Create user.** Validation, the password hint, the brand string, and
  provisioning by the signed-in admin.
- **SQL Studio.** Read/write classification, the 5000-row cap, commit and the
  audit entry, and what each failure leaves behind.
- **ETL console.** Qualified names, the transfer statement, placeholders, and
  the statements an upload or external load issues. The statements are
  simulated on the target table.

The warehouse is a value (`Tables.Warehouse`) with its three identity tables.
A connection is `Link = Offline | Online(db, failing)`. `failing` names the
statements that raise, so each error path of the code is an input rather than
a hidden effect. Texts are `seq<char>`:

- Python's `str.strip()` removes Python's whitespace set.
- Snowflake's `TRIM` removes blanks only.
- `lower`/`upper` are ASCII.
- pandas masks are `Seqs.Filter` with named predicates.

Values reach the warehouse inside single-quoted SQL literals. Only the audit
details are escaped (`replace("'", "''")`); every other value is placed
verbatim. `Literals` reads a literal the way Snowflake does:

- `''` stands for one quote.
- A backslash escapes the character after it. `\b`, `\f`, `\n`, `\r`, `\t`
  and `\0` stand for control characters; any other escaped character stands
  for itself.
- A lone quote or a trailing backslash ends the literal early, and the
  statement fails.

A text is *plain* when it holds no quote and no backslash.
`Literals.Verbatim(x)` is the text the warehouse sees for a verbatim value. It
is `x` exactly when `x` is plain, and `None` when the literal breaks. So
`O'Brien` makes the user insert fail, `ab''cd` is stored as `ab'cd`, and
`pa\b1234` is stored with a backspace after `pa`. The escaped details read back
as given exactly when they hold no backslash (see Findings). The identity
query compares stored emails with the text its literal denotes. The USER_ID
literal of the role query and of the UPDATE is read the same way.

Two facts of the code that shape the model:

- **Navigation.** For an admin, `app.py:53-61` lists Dashboard, User
  Management, Create User and Security Audit. It never lists SQL Studio or the
  ETL console, so `Portal.NavPages` does not offer them. Each page guards
  itself at its top (`Navigation.PageGate`), and every page the navigation
  lists admits the session that sees it (`Navigation.ListedPagesOpen`).
- **Sign-in failures.** The identity query in `modules/auth.py:11-15` runs
  outside the `try`, so an exception it raises propagates out of
  `authenticate_user` (`Auth.LookupRaised`, shown as `Traceback`). Failures of
  the role query are caught and return `None`.

What the proofs show:

- **Provisioning.** A fresh identity whose values are plain can sign in with
  the email and password just entered (`CreateUser.NewAccountCanSignIn`).
  Both conditions matter:
  - A name with an apostrophe breaks the insert (`Database.ApostropheNameRejected`).
  - A password such as `ab''cd` or `pa\b1234` is stored as different text,
    so the new account is refused its own password
    (`Database.QuotedPasswordLocksOut`).
  - An email typed with a trailing tab is stored with the tab, because
    Snowflake's `TRIM` removes only blanks, while sign-in strips the tab. That
    account is never found (`CreateUser.TrailingTabLocksOut`).
- **Partial failures.** A failing role insert leaves an active identity that
  has no role (`Database.RoleFailureLeavesOrphan`). In SQL Studio, a write
  that was committed stays committed when the audit insert then fails.
- **Edits.** Unticking "Active Status" for a user locks that email out
  (`Database.DeactivationLocksOut`). The user-management page reports
  `len(changes)` records updated, whatever each update returned
  (`UserMgmt.CommitEdits`, `reported == |edits|`). Each update runs against
  the tables the earlier ones left, so deactivations accumulate
  (`UserMgmt.DeactivationsAccumulate`).

## Model

| member | source | states |
|---|---|---|
| Literals.EscapeQuotes | modules/database.py:19 | escaping adds exactly one character per quote |
| Literals.EscapeCount | modules/database.py:19 | escaping doubles the number of quotes and keeps every backslash as it is |
| Literals.UnescapeEscape | modules/database.py:19-22 | for backslash-free details, reading the escaped body back gives the details |
| Literals.EscapeUnescape | modules/database.py:19-22 | every well-formed, backslash-free literal body is the escape of what it reads as |
| Literals.UnescapeLength | modules/database.py:19-22 | a well-formed, backslash-free literal body is longer than its text by the text's number of quotes |
| Literals.ReadCounts | modules/database.py:22 | reading a well-formed body uses two characters per quote or backslash: the text is shorter than the body by at least half its quotes and backslashes, and holds fewer of them whenever the body has any |
| Literals.EscapedLiteralRoundTrip | modules/database.py:19-22 | escaped details read back from their quoted literal exactly when they hold no backslash |
| Literals.EscapedQuoteDoubled | modules/database.py:19-22 | doubling the quote of an escaped quote (`\'` after plain text, with no quote next) breaks the details literal |
| Literals.EscapeLiteral | modules/database.py:19 | the corrected escape adds one character per quote or backslash |
| Literals.EscapeLiteralRoundTrip | modules/database.py:19-22 | with backslashes doubled as well as quotes, every details text reads back from its literal as given |
| Literals.VerbatimLiteral | modules/database.py:33-36 | a value placed between quotes without escaping reads back as itself exactly when it holds no quote and no backslash |
| Literals.Verbatim | modules/database.py:33-36 | the text a verbatim literal denotes is the value exactly when the value holds no quote and no backslash |
| Literals.QuotesPaired | modules/database.py:33-36 | a well-formed, backslash-free literal body holds its quotes in pairs |
| Literals.OddQuotesBreak | modules/auth.py:11-15 | a backslash-free value with an odd number of quotes never makes a well-formed literal |
| Literals.LoneQuote | modules/database.py:33-36 | after plain text, a quote not followed by another ends the literal early, so `O'Brien` breaks the statement |
| Literals.TrailingBackslash | modules/database.py:33-36 | plain text followed by a backslash escapes the closing quote, so the literal breaks |
| Literals.VerbatimAltersQuoted | modules/database.py:33-36 | a value with a quote or backslash that still parses is read back as different text, even after stripping both |
| Literals.DoubledQuoteCollapses | modules/database.py:35 | `ab''cd` placed verbatim is read back as `ab'cd` |
| Literals.BackslashEscapeRead | modules/database.py:35 | `pa\b1234` placed verbatim is read back with a backspace in place of `\b` |
| Literals.EscapedQuoteRead | modules/database.py:54 | `a\'b` placed verbatim is read back as `a'b` |
| Auth.NormalizeEmail | modules/auth.py:8 | the key has no ASCII capital and no surrounding Python whitespace, is no longer than the email, and keeps its quotes and backslashes |
| Auth.ActiveMatches | modules/auth.py:11-15 | the identity query returns exactly the active rows whose trimmed, lower-cased email equals the key, in table order, and none exactly when no row matches |
| Auth.RoleJoinMeaning | modules/auth.py:28-34 | a row is in the role join exactly when some user row with that USER_ID, a mapping row for it and a role row with the mapped name produce it |
| Auth.Decide | modules/auth.py:4-45 | each outcome exactly when its cause holds: no session when offline; a raised lookup when the identity query fails or its literal breaks; unknown user when no row matches; wrong password when the first match's stripped password differs; a role-query error when that query fails or its USER_ID literal breaks; no role when the join is empty; otherwise the join's first row |
| Auth.Authenticate | modules/auth.py:4-18 | offline exactly gives no session; a backslash-free email with an odd number of quotes makes the identity query raise; for a plain email it raises exactly when the query fails; a plain sign-in is backed by an active row with that key and an agreeing password |
| Auth.PlainLookup | modules/auth.py:11-24 | for a plain key the lookup raises exactly when the query fails, and a sign-in is backed by a matching row with an agreeing password |
| Auth.PlainKey | modules/auth.py:8-14 | a plain email gives a plain key |
| Auth.OddQuoteKey | modules/auth.py:8-15 | a backslash-free email with an odd number of quotes normalises to a key whose literal is malformed |
| Auth.NoMatchIsUnknown | modules/auth.py:11-18 | without a matching active row a plain key is an unknown user |
| Auth.RoleStage | modules/auth.py:20-42 | past the password check the outcome is the role join's first row, or the no-role refusal for an empty join |
| Auth.ToReturned | modules/auth.py:17-45 | only a failing identity query raises; the caller receives a record exactly on success, and `None` for every other failure |
| Auth.EmailCaseAndPaddingIrrelevant | modules/auth.py:8 | emails that differ in ASCII case or surrounding whitespace give the same outcome |
| Auth.WrongPasswordIgnoresRoles | modules/auth.py:20-25 | a wrong password fails the same way on any two warehouses with the same USERS rows, whatever their mapping and role tables and whether the role query would raise |
| Auth.DeactivatedLikeMissing | modules/auth.py:11-18 | deactivating the only row for an email and deleting it both give an unknown user |
| Auth.SignInUsesFirstMatch | modules/auth.py:20-42 | the join uses the USER_ID of the first active match and sign-in returns the join's first row |
| Auth.NoRoleIsDistinct | modules/auth.py:36-40 | a correct password without a role mapping warns, unlike a wrong password, though both return `None` |
| Portal.Init | app.py:7-13 | missing keys get `False`/`None`, present keys are kept, and a consistent session is unchanged |
| Portal.InitIdempotent | app.py:7-13 | re-running the initialisation does not reset the session |
| Portal.NavPages | app.py:53-61 | Dashboard is first and the default; admins get exactly User Management, Create User and Security Audit after it; nobody is offered SQL Studio or the ETL console |
| Portal.Render | app.py:21-71 | the login form shows exactly when not authenticated; a consistent session never crashes; the navigation shows the signed-in user's pages and name |
| Portal.Attempt | app.py:35-49 | success stores the record and sets `authenticated`; every other outcome leaves the session and shows the generic error, after the auth module's own warning where it has one |
| Portal.SignIn | app.py:21-49 | a signed-in session is unaffected; otherwise the attempt's effect; consistency is preserved |
| Portal.SignOut | app.py:73-79 | sign-out returns to the initial state and preserves consistency |
| Portal.SignInThenSignOut | app.py:35-79 | sign-in then sign-out from the initial state returns to it |
| Portal.ReachableRendersCleanly | app.py:21-71 | in a consistent session the login form shows exactly when no record is held |
| Portal.ReplayConsistent | app.py:7-79 | every session reachable by runs, sign-ins and sign-outs is consistent |
| Portal.ReplayHoldsOnlyAuthenticated | app.py:37-43 | a held record is one some earlier sign-in authenticated |
| Portal.SignedInGate | pages/2_User_Mgmt.py:8-10 | access exactly for a present, non-empty record, refused with the page's message otherwise |
| Portal.AdminGate | pages/4_Create_User.py:9-11 | access exactly for a present record with CAN_EDIT_USERS; a present `None` crashes; a missing key gets the page's message; a record without the flag is not authorised |
| Portal.AdminGateImpliesSignedIn | pages/5_SQL_Studio.py:12-16 | an admin gate admits only those the sign-in gate admits, and never crashes for a consistent signed-in session |
| Navigation.DashboardGate | pages/1_Dashboard.py:10-12 | the Dashboard opens exactly for a present, non-empty record and asks everyone else to log in |
| Navigation.ListedPagesOpen | app.py:53-61 | every page the navigation lists for a consistent session admits that session with its own record |
| Navigation.NonAdminGates | app.py:53-61 | a non-admin is offered only the Dashboard; Create User, SQL Studio and the ETL console refuse them as not authorised; User Management and Security Audit let them in |
| Navigation.SignedOutSeesNothing | app.py:21-71 | without a record the login form shows and no page opens |
| Database.AuditValues | modules/database.py:17-22 | the details literal reads back as the details exactly when they hold no backslash; the action type, admin email, IP and host name literals read back as their verbatim text |
| Database.AuditInsertSql | modules/database.py:20-23 | the statement is the AUDIT_LOGS head, the values and a closing parenthesis; comma-free values read back one by one between them |
| Database.StoredAuditRow | modules/database.py:17-24 | the stored row keeps backslash-free details and each plain value as given, and is exactly the given row when all of them are |
| Database.LogAdminAction | modules/database.py:13-26 | at most one entry, only when the insert runs; it carries backslash-free details and plain values as given, and is always written for such values; a failure is swallowed |
| Database.BrokenDetailsUnlogged | modules/database.py:19-26 | details whose escaped literal is malformed are never logged |
| Database.TrailingBackslashDropsEntry | modules/database.py:19-26 | details ending in a backslash (`ab\`) are never logged: the insert fails and the failure is swallowed |
| Database.EscapedAuditRow | modules/database.py:17-24 | with the corrected escape the stored row always keeps the details, and is exactly the given row when the other values are plain |
| Database.StoredUser | modules/database.py:33-36 | the user insert stores a row exactly when every value makes a well-formed literal; the row is active with the literal's password; plain values are stored as typed |
| Database.StoredMapping | modules/database.py:39-42 | the mapping insert stores a row exactly when both literals are well formed; plain values are stored as typed |
| Database.Provision | modules/database.py:28-48 | success exactly when both inserts run and their literals are well formed; the user row first, then the mapping, then the CREATE_USER audit entry, naming a backslash-free email and a plain admin as given; a failed role insert still leaves the user row |
| Database.ApostropheNameRejected | modules/database.py:33-36 | a name like `O'Brien` makes provisioning fail with nothing written |
| Database.NewUserIsFound | modules/database.py:33-36 | a new active row for an unused email is the only match sign-in finds |
| Database.CommitProvisioning | modules/database.py:33-44 | the writes append the user row and, if it ran, the mapping, and leave DIM_ROLES alone |
| Database.JoinedUnique | modules/auth.py:28-34 | with one user row and one mapping per USER_ID, every join row carries that user's email, name and role |
| Database.ProvisionedTables | modules/database.py:33-42 | after a fresh provisioning, the new row is the only match and the only row or mapping with its USER_ID |
| Database.FreshRowSignsIn | modules/auth.py:11-42 | for a plain key and USER_ID, such a row signs in with its password and receives its own email and role |
| Database.ProvisionedUserSignsIn | modules/database.py:28-45 | a provisioned fresh identity with plain values signs in with the given email and password and gets the given role |
| Database.QuotedPasswordLocksOut | modules/database.py:33-36 | a password with a quote or backslash that still parses is stored altered: provisioning succeeds but sign-in with it is a wrong password |
| Database.RoleFailureLeavesOrphan | modules/database.py:33-48 | a failing role insert reports failure, yet the stored user signs in to a no-role warning |
| Database.Assignments | modules/database.py:53 | one assignment per updated field, in order |
| Database.SetClause | modules/database.py:53-54 | no fields give an empty clause; comma-free assignments read back from the clause one by one, in field order |
| Database.SetClauseSnoc | modules/database.py:53-54 | the SET clause grows by `", "` and one assignment per field |
| Database.UpdateSql | modules/database.py:54 | the statement holds the SET clause after its head, and its trailing literal denotes the USER_ID as the warehouse reads it |
| Database.AssignAll | modules/database.py:53-56 | a column no field names keeps its value; a trailing IS_ACTIVE assignment decides the status |
| Database.UpdatedUsers | modules/database.py:54-56 | rows with the USER_ID take the assignments and every other row is unchanged |
| Database.UpdateUser | modules/database.py:50-61 | offline does nothing; online issues the update for the user's ID; success exactly when it runs and is accepted; on success DIM_USERS is the updated table; an UPDATE_USER audit entry only after success, naming a backslash-free USER_ID and a plain admin as given, and always written when the audit insert runs and those values are |
| Database.EscapedQuoteIdGoesUnlogged | modules/database.py:50-58 | for a USER_ID `a\'b` the UPDATE runs without error but matches USER_ID `a'b`, so every row holding `a\'b` is left unchanged; its `ID: a\''b` details break the audit insert, so nothing is logged |
| Database.DeactivationLocksOut | modules/database.py:50-58 | deactivating the USER_ID of every row matching a key succeeds, and sign-in then finds no user |
| UserMgmt.Gate | pages/2_User_Mgmt.py:8-10 | any present record opens the page with that record; a missing or empty one is asked to log in |
| UserMgmt.Directory | pages/2_User_Mgmt.py:33 | one row per user, in table order, with the same ID, name, email, department, brands and status |
| UserMgmt.ActiveCount | pages/2_User_Mgmt.py:37 | the active count is at most the total; it is zero exactly when none is active and the total exactly when all are |
| UserMgmt.InactiveCount | pages/2_User_Mgmt.py:36-38 | total minus active is the number of inactive rows, between 0 and the total |
| UserMgmt.Departments | pages/2_User_Mgmt.py:57 | the department options are exactly the departments of the directory, no more than its rows |
| UserMgmt.FilterDirectory | pages/2_User_Mgmt.py:60-68 | no term and no department keep the directory whole; the view holds exactly the selected rows |
| UserMgmt.FilterDirectoryIsFilter | pages/2_User_Mgmt.py:60-68 | the two masks in a row equal one filter by the combined condition |
| UserMgmt.FilterDirectoryIsSubsequence | pages/2_User_Mgmt.py:60-68 | the view keeps the directory's order |
| UserMgmt.AfterUpdate | modules/database.py:54-57 | a successful update leaves DIM_USERS as updated and appends its audit entry, keeping the other tables and the failing statements; a failed one changes nothing |
| UserMgmt.Replay | pages/2_User_Mgmt.py:112-115 | one update per edit, in order, each against the tables the earlier ones left; the session stays online or offline and keeps its mapping and role tables |
| UserMgmt.EditedIds | pages/2_User_Mgmt.py:113 | the USER_ID at each edited position of the view, in edit order |
| UserMgmt.CommitEdits | pages/2_User_Mgmt.py:106-121 | no edits gives "no pending changes"; it commits exactly when every edited position lies in the view, and reports every edit; the updates and the final tables are those of `Replay`, each update naming the ID at its position and running against the tables the earlier ones left; an out-of-range position stops the loop with the earlier edits' replay standing |
| UserMgmt.DeactivationsAccumulate | pages/2_User_Mgmt.py:112-115 | after a run of deactivating edits with plain USER_IDs, every row one of them names is inactive and every other row is as it was |
| AuditLogs.Gate | pages/3_Audit_Logs.py:8-10 | any present record opens the page with that record; a missing or empty one gets "Session expired" |
| AuditLogs.Last24h | pages/3_Audit_Logs.py:48 | the metric is zero exactly when every entry is at least a day old |
| AuditLogs.RecentAreNewest | pages/3_Audit_Logs.py:36-48 | on the newest-first log, the recent entries are exactly its first `Last24h` entries |
| AuditLogs.Operators | pages/3_Audit_Logs.py:49 | the operators are exactly the CHANGED_BY values of the log |
| AuditLogs.CriticalType | pages/3_Audit_Logs.py:50 | a type is critical exactly when DELETE, UPDATE or CREATE occurs at some position of its upper-cased text |
| AuditLogs.CriticalCount | pages/3_Audit_Logs.py:50 | the count is zero exactly when no entry is critical |
| AuditLogs.CriticalIgnoresCase | pages/3_Audit_Logs.py:50 | the critical test ignores letter case |
| AuditLogs.PortalActionsClassified | pages/3_Audit_Logs.py:50 | UPDATE_USER and CREATE_USER are critical, SQL_EXECUTION is not |
| AuditLogs.NoCriticalLetters | pages/3_Audit_Logs.py:50 | a type without D, P or R names no critical action |
| AuditLogs.FilterLog | pages/3_Audit_Logs.py:70-81 | no selection keeps the whole log; the view holds exactly the entries every selected filter keeps; the date range includes both end days |
| AuditLogs.FilterLogIsFilter | pages/3_Audit_Logs.py:70-81 | the three masks in a row equal one filter by the combined condition |
| AuditLogs.FilterLogKeepsOrder | pages/3_Audit_Logs.py:39-81 | the view is a subsequence of the log and stays newest first |
| AuditLogs.ReversedRangeIsEmpty | pages/3_Audit_Logs.py:76-81 | a date range whose start follows its end keeps nothing |
| CreateUser.Gate | pages/4_Create_User.py:9-11 | only a present admin record opens the page; a missing key or a record without CAN_EDIT_USERS is not authorised; a present `None` crashes |
| CreateUser.Validate | pages/4_Create_User.py:87-91 | missing fields exactly when a required field is empty; a bad email exactly when it lacks `@` or `.`; accepted otherwise |
| CreateUser.PasswordHint | pages/4_Create_User.py:75-79 | no hint for an empty password, "weak" for fewer than 6 characters |
| CreateUser.HintNeverBlocks | pages/4_Create_User.py:75-91 | the hint is advisory: a weak password is accepted like any other |
| CreateUser.RequiredCheckComesFirst | pages/4_Create_User.py:88-90 | an empty email is a missing field, not a bad format |
| CreateUser.BrandString | pages/4_Create_User.py:95 | no brands gives "None"; comma-free brands read back from the string one by one, in order; the string is plain when every brand is |
| CreateUser.BrandStringCommas | pages/4_Create_User.py:95 | comma-free brands give one comma between consecutive brands |
| CreateUser.Submit | pages/4_Create_User.py:87-100 | blocked exactly when the gate refuses; rejected exactly on a failed validation; provisioning runs only for an admin and an accepted form, with the form's email and the admin as actor |
| CreateUser.NewAccountCanSignIn | pages/4_Create_User.py:102-105 | a fresh account with plain values and an existing role can sign in with the entered email and password and gets that role |
| CreateUser.TrailingTabLocksOut | pages/4_Create_User.py:97-105 | an email typed with trailing non-blank whitespace is provisioned but never found at sign-in |
| SqlStudio.Gate | pages/5_SQL_Studio.py:12-16 | only a present admin record opens the page; a missing key or a record without CAN_EDIT_USERS gets "Access Denied"; a present `None` crashes |
| SqlStudio.IsRead | pages/5_SQL_Studio.py:66 | a statement is a read exactly when its stripped text starts with the six letters of "select" in either case |
| SqlStudio.ShowResult | pages/5_SQL_Studio.py:66-78 | rows are shown exactly for a read: a prefix of the result, exactly 5000 rows when there are at least that many, all of them when fewer |
| SqlStudio.Execute | pages/5_SQL_Studio.py:51-104 | a blank statement is refused; completion exactly when nothing fails; a write is committed; the audit entry holds the statement as typed and the admin; a committed write stays committed when the audit fails |
| SqlStudio.Visit | pages/5_SQL_Studio.py:12-16 | the statement runs exactly for a present admin record, with that record |
| SqlStudio.ReadIgnoresCaseAndPadding | pages/5_SQL_Studio.py:66 | the read test ignores surrounding whitespace and letter case |
| EtlConsole.Gate | pages/6_ETL_Console.py:14-22 | only a present admin record opens the page; a missing key gets "Session expired", a record without CAN_EDIT_USERS "Access Denied"; a present `None` crashes |
| EtlConsole.Qualified | pages/6_ETL_Console.py:79-80 | the qualified name is the dot-join of its three parts |
| EtlConsole.QualifiedSplits | pages/6_ETL_Console.py:80 | dot-free parts can be read back from the qualified name |
| EtlConsole.TransferSql | pages/6_ETL_Console.py:82-85 | the statement recreates the target exactly for OVERWRITE, appends otherwise, and ends with the source query |
| EtlConsole.TransferSqlParses | pages/6_ETL_Console.py:82-85 | for a blank-free target, the load type, target and query are read back from the statement |
| EtlConsole.TransferSqlInjective | pages/6_ETL_Console.py:82-85 | distinct choices with blank-free targets issue distinct statements |
| EtlConsole.SnowflakeTransfer | pages/6_ETL_Console.py:75-87 | the transfer reads the qualified source into the qualified target |
| EtlConsole.Placeholders | pages/6_ETL_Console.py:132 | n placeholders: n `%` signs, n-1 commas, length 4n-2 |
| EtlConsole.UpperColumns | pages/6_ETL_Console.py:124 | one name per column, of the same length, with no lower-case letter |
| EtlConsole.UpperColumnsIdempotent | pages/6_ETL_Console.py:231 | upper-casing twice is upper-casing once |
| EtlConsole.InsertEach | pages/6_ETL_Console.py:131-136 | one INSERT per row, in order, with that row as parameters |
| EtlConsole.RunInserts | pages/6_ETL_Console.py:131-136 | the inserts append the rows, in order |
| EtlConsole.OverwriteAsWritten | pages/6_ETL_Console.py:127-136 | an empty frame raises; otherwise a CREATE from the first row followed by one INSERT for every row, one statement more than rows |
| EtlConsole.AsWrittenDuplicatesFirstRow | pages/6_ETL_Console.py:127-136 | as written, the table ends up with the first row followed by all rows |
| EtlConsole.OneRowLoadsTwice | pages/6_ETL_Console.py:127-136 | a file with columns NAME and CITY and the one row (Asha, Pune) loads as that row twice |
| EtlConsole.OverwritePlan | pages/6_ETL_Console.py:127-136 | the corrected overwrite issues one statement per row, the CREATE first |
| EtlConsole.OverwriteLoadsExactly | pages/6_ETL_Console.py:127-136 | the corrected overwrite leaves exactly the frame's rows |
| EtlConsole.AppendPlan | pages/6_ETL_Console.py:239-244 | an append issues one INSERT per row and no CREATE |
| EtlConsole.AppendLoadsAfter | pages/6_ETL_Console.py:239-244 | an append keeps the old rows and adds the frame's after them |
| EtlConsole.UploadPlan | pages/6_ETL_Console.py:121-136 | an upload targets the qualified table, fails only on an empty frame, and issues one statement more than the frame has rows |
| EtlConsole.UploadLoadsExtraRow | pages/6_ETL_Console.py:121-136 | an upload leaves one row more in the table than the file holds |
| EtlConsole.ExternalPlan | pages/6_ETL_Console.py:229-244 | an external APPEND is inserts only; an OVERWRITE issues the same statements as an upload |
| EtlConsole.ExternalLoadResult | pages/6_ETL_Console.py:234-250 | the target holds the first row and then all rows on OVERWRITE, and the old rows then the new ones on APPEND |
| EtlConsole.TableLabel | pages/6_ETL_Console.py:198-207 | MSSQL tables are labelled `schema.table`, MySQL tables by bare name |
| EtlConsole.MsSqlLabelSplits | pages/6_ETL_Console.py:203 | a dot-free MSSQL label names its schema and table |
| Strings.SplitListJoin | pages/4_Create_User.py:95 | a comma-free list joined by ", " splits back into that list |
| Strings.LowerPrefix | pages/5_SQL_Studio.py:66 | a lower-cased text starts with a lower-case word exactly when its first letters lower-case to that word |

## Left out

- Page layout is not modelled: CSS, metrics styling, progress bars, balloons, `st.rerun`, `time.sleep` and the sidebar tips.
- The Dashboard's content (pages/1_Dashboard.py after its gate) is not modelled: its charts and tables only display data and change nothing.
- Connections are not modelled. `st.cache_resource` sessions, secrets and the connector calls become the `Link` parameter. A failed connection is `Offline` or a failing statement.
- The "Connection Error" / "Audit System Offline" branches of pages 2 and 3 are not modelled separately. They are the `Offline` link.
- `SHOW DATABASES`, `SHOW SCHEMAS` and `SHOW TABLES` listings, and the widgets that pick from them, are not modelled. Their choices are parameters.
- The connection to the external MSSQL/MySQL source is not modelled. Its driver strings, `USE` and `pd.read_sql` are left out; the frame read is a parameter.
- `socket.gethostname`/`gethostbyname` are not modelled. Host name and IP are a `Host` parameter, and a failing lookup counts as a failing audit write.
- Clocks are not modelled. `time.time()`, `pd.Timestamp.now()` and execution times are parameters or dropped.
- Timestamps are whole seconds and dates are UTC day numbers. Time zones and `pd.to_datetime` parsing are not modelled.
- Warehouse semantics beyond the modelled statements are not modelled. The model does not parse arbitrary SQL typed into SQL Studio; its result is a parameter.
- Column types are not modelled. NULLs are modelled only for ACTION_TYPE (`na=False`).
- CSV/Excel parsing, CSV export, the Plotly chart and `value_counts` are not modelled.
- The quick search's `str.contains` is not modelled as a regular expression. The term is matched as a plain substring, which agrees for terms without regular-expression metacharacters.
- Case-insensitive matching is not Unicode-aware. `lower()`/`upper()` are ASCII in the model; non-ASCII letters are left unchanged.
- A failing `conn.commit()` is not modelled separately from the statement before it.
- Auth.Decide: a quote is read only as part of the literal. Text after a lone quote that the warehouse would take as more SQL is not modelled, so the injected key `x' or '1'='1` (which matches every active row) and a trailing `--` comment are modelled as a raised lookup.
- Auth.Authenticate: the odd-quote clause holds for the literal reading above; an email that ends the literal and comments out the rest (`a' --`) is not modelled. The clause also requires a backslash-free email, because `\'` lets an odd quote through (`Literals.EscapedQuoteRead`).
- Auth.ActiveMatches: the identity query has no ORDER BY, so SQL fixes no order for `user_check[0]`; the model fixes table order.
- Auth.RoleJoin: the role join's order is not fixed by SQL either; the model enumerates user rows, then their mappings, then roles, in table order.
- Database.LogAdminAction: the action type, actor, IP and host name are only promised to arrive intact when they are plain. They are placed unescaped in the statement, and a quote or backslash in them makes the insert fail or store something else. The details are only promised when they hold no backslash: the source escapes quotes alone (see Findings).
- Database.AuditValues: the details literal reads back as the details only when they hold no backslash, for the reason above.
- Database.StoredAuditRow: the details are kept only when they hold no backslash, and the other values only when they are plain, for the reasons above.
- Database.Provision: the values are placed verbatim; a quote or backslash in them breaks the insert or changes the stored text, as `Literals.Verbatim` describes, and injected SQL is not modelled. The audit details are only promised for a backslash-free email, and the actor for a plain admin email.
- Database.UpdateUser: the audit entry is only promised when the admin email and host values are plain and the USER_ID holds no backslash, for the same reasons; `Database.EscapedQuoteIdGoesUnlogged` shows a USER_ID whose update goes unlogged.
- Database.UpdateUser: the dictionary's columns are not required to be distinct (a later field wins), and type coercion is not modelled: text into IS_ACTIVE, a boolean into a text column, and `None` cells make the update fail in the model.
- Database.ProvisionedUserSignsIn and CreateUser.NewAccountCanSignIn: stated only for plain values; `Database.QuotedPasswordLocksOut` and `Database.ApostropheNameRejected` show what happens otherwise.
- Literals.EscapedChar: Snowflake's octal, hex and Unicode escapes (`\ooo`, `\xhh`, `\uhhhh`) are not modelled. The model reads them as a one-character escape followed by plain text.
- Literals.UnescapeEscape: stated for backslash-free details only; `Literals.EscapedLiteralRoundTrip` shows that the round trip fails for every other text.
- Literals.EscapeUnescape: stated for backslash-free bodies only; a backslash escape reads as one character that quote-doubling does not produce.
- Literals.UnescapeLength: stated for backslash-free bodies only; `Literals.ReadCounts` bounds the length for every well-formed body.
- Literals.QuotesPaired: stated for backslash-free bodies only, since `\'` holds a single quote in a well-formed body.
- Literals.OddQuotesBreak: stated for backslash-free values only, since `a\'b` holds one quote and still parses.
- UserMgmt.DeactivationsAccumulate: stated for plain USER_IDs; any other USER_ID may break its UPDATE literal or denote different text.
- EtlConsole.Run: every statement is assumed to succeed. In the source a failing INSERT jumps to the `except` block, and the CREATE and the INSERTs before it stay, because each statement commits on its own (pages/6_ETL_Console.py:131-142, 239-253). The model has no failing statement for the ETL loads.
- EtlConsole.OverwriteAsWritten: the VALUES text of the CREATE (how `tuple(df.iloc[0])` renders a row, including the one-column `(x,)` form) is not modelled; `CreateFrom` stands for a CREATE that makes the table hold exactly that row.
- UserMgmt.Departments and AuditLogs.Operators: the model returns sets. The order of pandas' `unique()` options is not kept.

## Findings

| source | as written | input that shows it | evidently intended | confidence | as-written member | corrected member |
|---|---|---|---|---|---|---|
| pages/6_ETL_Console.py:127-136 | the overwrite load creates the target from the first row (`CREATE OR REPLACE TABLE … AS SELECT * FROM VALUES row0`) and then inserts every row, the first included; the same code is at lines 234-244 for an external OVERWRITE, and both tabs are modelled as written (`EtlConsole.UploadPlan`, `EtlConsole.ExternalPlan`) | a file with columns NAME, CITY and one row (Asha, Pune) leaves that row in the table twice | the table holds exactly the frame's rows | not executed | EtlConsole.OverwriteAsWritten (EtlConsole.AsWrittenDuplicatesFirstRow, EtlConsole.OneRowLoadsTwice) | EtlConsole.OverwritePlan (EtlConsole.OverwriteLoadsExactly) |
| modules/database.py:19-22 | the audit details escape quotes only (`replace("'", "''")`), but Snowflake reads a backslash inside a literal as an escape | details ending in a backslash (`ab\`) escape the closing quote, so the insert fails and is swallowed; for a USER_ID `a\'b` the UPDATE runs without error but matches USER_ID `a'b`, so the row holding `a\'b` is left unchanged; its `ID: a\''b` details break the audit insert, so nothing is logged | every details text is stored as given | not executed | Literals.EscapeQuotes (Literals.EscapedLiteralRoundTrip, Database.TrailingBackslashDropsEntry, Database.EscapedQuoteIdGoesUnlogged) | Literals.EscapeLiteral (Literals.EscapeLiteralRoundTrip, Database.EscapedAuditRow) |
