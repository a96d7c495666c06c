/**
  The user management page (pages/2_User_Mgmt.py): the directory fetched from
  DIM_USERS, its status counts, the search and department filters, and the
  commit loop that turns edited rows of the filtered view into user updates.
 */
module UserMgmt {
  import opened Strings
  import opened Seqs
  import opened Tables
  import opened Literals
  import Portal
  import Database

  /** The page's gate: a missing or empty `user_info` gets "Please login";
      any signed-in user, admin or not, is let through. */
  function Gate(s: Portal.Store): (a: Portal.Access)
    ensures a.Granted? <==> s.userInfo.Present? && s.userInfo.value.Some?
    ensures a.Granted? ==> a.info == s.userInfo.value.value
    ensures !a.Granted? ==> a == Portal.Denied(Portal.NotSignedIn)
  {
    Portal.SignedInGate(s, Portal.NotSignedIn)
  }

  /** A row of the directory query: every DIM_USERS column but the password. */
  datatype DirectoryRow = DirectoryRow(
    userId: string,
    fullName: string,
    email: string,
    department: string,
    brandAccess: string,
    isActive: bool)

  function Listing(u: UserRow): DirectoryRow {
    DirectoryRow(u.userId, u.fullName, u.email, u.department, u.brandAccess, u.isActive)
  }

  /** `SELECT USER_ID, ..., IS_ACTIVE FROM DIM_USERS`, in table order. */
  function Directory(users: seq<UserRow>): (df: seq<DirectoryRow>)
    ensures |df| == |users|
    ensures forall k :: 0 <= k < |df| ==> df[k].userId == users[k].userId && df[k].isActive == users[k].isActive
    ensures forall k :: 0 <= k < |df| ==>
              && df[k].fullName == users[k].fullName && df[k].email == users[k].email
              && df[k].department == users[k].department && df[k].brandAccess == users[k].brandAccess
  {
    seq(|users|, k requires 0 <= k < |users| => Listing(users[k]))
  }

  predicate IsActive(r: DirectoryRow) {
    r.isActive
  }

  predicate IsInactive(r: DirectoryRow) {
    !r.isActive
  }

  /** The "Active Accounts" metric: rows whose IS_ACTIVE is true. */
  function ActiveCount(df: seq<DirectoryRow>): (n: nat)
    ensures n <= |df|
    ensures n == 0 <==> forall k :: 0 <= k < |df| ==> !df[k].isActive
    ensures n == |df| <==> forall k :: 0 <= k < |df| ==> df[k].isActive
  {
    FilterEmpty(df, IsActive);
    FilterKeepsAll(df, IsActive);
    |Filter(df, IsActive)|
  }

  /** The "Deactivated" metric, the total minus the active count, is
      exactly the number of inactive rows, so it is never negative. */
  function InactiveCount(df: seq<DirectoryRow>): (n: int)
    ensures n == |Filter(df, IsInactive)|
    ensures 0 <= n <= |df|
  {
    FilterSplitsCount(df, IsActive, IsInactive);
    |df| - ActiveCount(df)
  }

  /** The distinct DEPARTMENT values: the filter's options, and their number
      is the "Departments" metric (`nunique`). */
  function Departments(df: seq<DirectoryRow>): (r: set<string>)
    ensures |r| <= |df|
    ensures forall k :: 0 <= k < |df| ==> df[k].department in r
    ensures forall d :: d in r ==> exists k :: 0 <= k < |df| && df[k].department == d
  {
    if df == [] then {}
    else
      var rest := Departments(df[1..]);
      DepartmentsOfTail(df, rest);
      {df[0].department} + rest
  }

  lemma DepartmentsOfTail(df: seq<DirectoryRow>, rest: set<string>)
    requires df != []
    requires forall d :: d in rest ==> exists k :: 0 <= k < |df[1..]| && df[1..][k].department == d
    ensures forall d :: d in rest ==> exists k :: 0 <= k < |df| && df[k].department == d
  {
    forall d | d in rest
      ensures exists k :: 0 <= k < |df| && df[k].department == d
    {
      var j :| 0 <= j < |df[1..]| && df[1..][j].department == d;
      assert df[j + 1].department == d;
    }
  }

  /** The quick search: name or email contains the term ignoring case, or the
      employee ID contains it exactly. */
  predicate SearchHit(r: DirectoryRow, term: string) {
    || Contains(Lower(r.fullName), Lower(term))
    || Contains(Lower(r.email), Lower(term))
    || Contains(r.userId, term)
  }

  function SearchMask(term: string): DirectoryRow -> bool {
    (r: DirectoryRow) => SearchHit(r, term)
  }

  /** `DEPARTMENT.isin(dept_filter)`. */
  function DeptMask(depts: seq<string>): DirectoryRow -> bool {
    (r: DirectoryRow) => r.department in depts
  }

  /** Whether a row stays in the view: an empty term or an empty department
      selection does not filter. */
  predicate Selected(r: DirectoryRow, term: string, depts: seq<string>) {
    (term == "" || SearchHit(r, term)) && (depts == [] || r.department in depts)
  }

  function SelectedMask(term: string, depts: seq<string>): DirectoryRow -> bool {
    (r: DirectoryRow) => Selected(r, term, depts)
  }

  /** `filtered_df`: the search mask, then the department mask, each only
      when its input is non-empty. */
  function FilterDirectory(df: seq<DirectoryRow>, term: string, depts: seq<string>): (r: seq<DirectoryRow>)
    ensures term == "" && depts == [] ==> r == df
    ensures forall k :: 0 <= k < |r| ==> r[k] in df && Selected(r[k], term, depts)
    ensures forall k :: 0 <= k < |df| && Selected(df[k], term, depts) ==> df[k] in r
  {
    var searched := if term != "" then Filter(df, SearchMask(term)) else df;
    if depts != [] then Filter(searched, DeptMask(depts)) else searched
  }

  /** The two masks in a row are one filter by `Selected`. */
  lemma FilterDirectoryIsFilter(df: seq<DirectoryRow>, term: string, depts: seq<string>)
    ensures FilterDirectory(df, term, depts) == Filter(df, SelectedMask(term, depts))
  {
    if term == "" && depts == [] {
      FilterAll(df, SelectedMask(term, depts));
    } else if term == "" {
      FilterExtensional(df, DeptMask(depts), SelectedMask(term, depts));
    } else if depts == [] {
      FilterExtensional(df, SearchMask(term), SelectedMask(term, depts));
    } else {
      FilterFilter(df, SearchMask(term), DeptMask(depts), SelectedMask(term, depts));
    }
  }

  /** The view keeps the fetched order: it is a subsequence of the directory. */
  lemma FilterDirectoryIsSubsequence(df: seq<DirectoryRow>, term: string, depts: seq<string>)
    ensures IsSubsequence(FilterDirectory(df, term, depts), df)
  {
    FilterDirectoryIsFilter(df, term, depts);
    FilterIsSubsequence(df, SelectedMask(term, depts));
  }

  /** One entry of `edited_rows`: a position in the displayed view and the
      changed columns. */
  datatype Edit = Edit(row: nat, fields: seq<Database.Field>)

  /** What pressing "Commit Changes" does. `IndexError` is the uncaught
      `iloc` failure for a position outside the view; the updates issued
      before it stand. `after` is the session once the loop stops. */
  datatype CommitResult =
    | NoPendingChanges
    | Committed(updates: seq<Database.Update>, reported: nat, after: Link)
    | IndexError(updates: seq<Database.Update>, after: Link)

  /** Every edited position lies inside the displayed view. */
  predicate InView(view: seq<DirectoryRow>, edits: seq<Edit>) {
    forall k :: 0 <= k < |edits| ==> edits[k].row < |view|
  }

  /** The update the loop issues for one edit, against the live tables. */
  function EditUpdate(link: Link, view: seq<DirectoryRow>, e: Edit, adminEmail: string, host: Host): Database.Update
    requires e.row < |view|
  {
    Database.UpdateUser(link, view[e.row].userId, e.fields, adminEmail, host)
  }

  /** The session after one update: a successful update leaves DIM_USERS as
      updated and AUDIT_LOGS with its entry appended; a failed one changes
      nothing. */
  function AfterUpdate(link: Link, u: Database.Update): (r: Link)
    ensures r.Online? <==> link.Online?
    ensures r.Online? ==> r.failing == link.failing && r.db.roles == link.db.roles
                          && r.db.mappings == link.db.mappings
    ensures r.Online? && u.ok && u.users.Some? ==>
              r.db.users == u.users.value && r.db.audit == link.db.audit + u.audit
    ensures !(u.ok && u.users.Some?) ==> r == link
  {
    if link.Online? && u.ok && u.users.Some? then
      Online(link.db.(users := u.users.value, audit := link.db.audit + u.audit), link.failing)
    else link
  }

  /** Where the loop stands after a run of edits. */
  datatype Replayed = Replayed(after: Link, updates: seq<Database.Update>)

  /** The edits applied in order, each update issued against the tables the
      earlier ones left: the session afterwards and the updates issued. */
  function Replay(link: Link, view: seq<DirectoryRow>, edits: seq<Edit>, adminEmail: string, host: Host)
    : (r: Replayed)
    requires InView(view, edits)
    ensures |r.updates| == |edits|
    ensures r.after.Online? <==> link.Online?
    ensures r.after.Online? ==> r.after.failing == link.failing && r.after.db.roles == link.db.roles
                                && r.after.db.mappings == link.db.mappings
    decreases |edits|
  {
    if edits == [] then Replayed(link, [])
    else
      var before := Replay(link, view, edits[..|edits| - 1], adminEmail, host);
      var u := EditUpdate(before.after, view, edits[|edits| - 1], adminEmail, host);
      Replayed(AfterUpdate(before.after, u), before.updates + [u])
  }

  /** The commit loop: for each edited position, in order, the USER_ID at that
      position of the filtered view is updated with that row's changes by the
      signed-in admin, against the tables the earlier updates left. */
  method CommitEdits(link: Link, view: seq<DirectoryRow>, edits: seq<Edit>, adminEmail: string, host: Host)
    returns (c: CommitResult)
    ensures c == NoPendingChanges <==> edits == []
    ensures c.Committed? <==> edits != [] && InView(view, edits)
    ensures c.Committed? ==> c.reported == |edits| && |c.updates| == |edits|
                             && Replay(link, view, edits, adminEmail, host) == Replayed(c.after, c.updates)
    ensures c.IndexError? ==> |c.updates| < |edits| && edits[|c.updates|].row >= |view|
    ensures c.IndexError? ==> InView(view, edits[..|c.updates|])
                              && Replay(link, view, edits[..|c.updates|], adminEmail, host) == Replayed(c.after, c.updates)
  {
    if edits == [] {
      return NoPendingChanges;
    }
    var updates: seq<Database.Update> := [];
    var cur := link;
    var i := 0;
    while i < |edits|
      invariant 0 <= i <= |edits|
      invariant InView(view, edits[..i])
      invariant Replay(link, view, edits[..i], adminEmail, host) == Replayed(cur, updates)
    {
      var e := edits[i];
      if e.row >= |view| {
        return IndexError(updates, cur);
      }
      ReplayStep(link, view, edits, i, adminEmail, host);
      var u := EditUpdate(cur, view, e, adminEmail, host);
      updates := updates + [u];
      cur := AfterUpdate(cur, u);
      i := i + 1;
    }
    assert edits[..i] == edits;
    return Committed(updates, |edits|, cur);
  }

  /** The replay of one more edit is the replay so far followed by that edit. */
  lemma ReplayStep(link: Link, view: seq<DirectoryRow>, edits: seq<Edit>, i: nat, adminEmail: string, host: Host)
    requires i < |edits| && InView(view, edits[..i]) && edits[i].row < |view|
    ensures InView(view, edits[..i + 1])
    ensures var r := Replay(link, view, edits[..i], adminEmail, host);
            var u := EditUpdate(r.after, view, edits[i], adminEmail, host);
            Replay(link, view, edits[..i + 1], adminEmail, host) == Replayed(AfterUpdate(r.after, u), r.updates + [u])
  {
    assert edits[..i + 1][..i] == edits[..i];
  }

  /** Unticking "Active Status" on a row of the view. */
  predicate Deactivates(e: Edit) {
    e.fields == [Database.Field("IS_ACTIVE", Database.Flag(false))]
  }

  /** The USER_IDs the edits name, in order. */
  function EditedIds(view: seq<DirectoryRow>, edits: seq<Edit>): (r: seq<string>)
    requires InView(view, edits)
    ensures |r| == |edits|
    ensures forall k :: 0 <= k < |edits| ==> r[k] == view[edits[k].row].userId
    decreases |edits|
  {
    if edits == [] then []
    else EditedIds(view, edits[..|edits| - 1]) + [view[edits[|edits| - 1].row].userId]
  }

  /** Deactivations accumulate: after a run of deactivating edits with plain
      USER_IDs, every row whose USER_ID one of them names is inactive, and
      every other row is as it was. */
  lemma {:induction false} DeactivationsAccumulate(db: Warehouse, failing: set<Stmt>, view: seq<DirectoryRow>,
                                                   edits: seq<Edit>, adminEmail: string, host: Host)
    requires UserUpdate !in failing
    requires InView(view, edits)
    requires forall k :: 0 <= k < |edits| ==> Deactivates(edits[k]) && Plain(view[edits[k].row].userId)
    ensures var after := Replay(Online(db, failing), view, edits, adminEmail, host).after;
            after.Online? && |after.db.users| == |db.users|
            && forall j :: 0 <= j < |db.users| ==>
                 after.db.users[j] == if db.users[j].userId in EditedIds(view, edits)
                                      then db.users[j].(isActive := false) else db.users[j]
    decreases |edits|
  {
    if edits != [] {
      var init := edits[..|edits| - 1];
      var e := edits[|edits| - 1];
      DeactivationsAccumulate(db, failing, view, init, adminEmail, host);
      var before := Replay(Online(db, failing), view, init, adminEmail, host).after;
      var uid := view[e.row].userId;
      assert EditedIds(view, edits) == EditedIds(view, init) + [uid];
      DeactivateOne(before, db.users, EditedIds(view, init), uid, adminEmail, host);
    }
  }

  /** One more deactivation on top of earlier ones. */
  lemma DeactivateOne(before: Link, users: seq<UserRow>, ids: seq<string>, uid: string, adminEmail: string,
                      host: Host)
    requires before.Online? && UserUpdate !in before.failing && Plain(uid)
    requires |before.db.users| == |users|
    requires forall j :: 0 <= j < |users| ==>
               before.db.users[j] == if users[j].userId in ids then users[j].(isActive := false) else users[j]
    ensures var u := Database.UpdateUser(before, uid, [Database.Field("IS_ACTIVE", Database.Flag(false))], adminEmail, host);
            var after := AfterUpdate(before, u);
            after.Online? && |after.db.users| == |users|
            && forall j :: 0 <= j < |users| ==>
                 after.db.users[j] == if users[j].userId in ids + [uid] then users[j].(isActive := false) else users[j]
  {
    var fields := [Database.Field("IS_ACTIVE", Database.Flag(false))];
    assert Verbatim(uid) == Some(uid);
    assert Database.UpdateAccepted(uid, fields);
    forall j | 0 <= j < |users| {
      DeactivateRow(before.db.users[j]);
    }
  }

  lemma DeactivateRow(u: UserRow)
    ensures Database.AssignAll(u, [Database.Field("IS_ACTIVE", Database.Flag(false))]) == u.(isActive := false)
  {
  }
}
