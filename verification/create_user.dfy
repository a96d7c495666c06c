/**
  The provisioning page (pages/4_Create_User.py): its gate, the form's
  validation, the brand string, the advisory password hint, and the call
  into provisioning with the signed-in admin as actor.
 */
module CreateUser {
  import opened Strings
  import opened Tables
  import opened Literals
  import Portal
  import Database
  import Auth

  /** A missing `user_info` or one without CAN_EDIT_USERS is refused as
      unauthorised; a present `None` makes `.get` raise. */
  function Gate(s: Portal.Store): (a: Portal.Access)
    ensures a.Granted? <==> s.userInfo.Present? && s.userInfo.value.Some? && s.userInfo.value.value.canEditUsers
    ensures a.Granted? ==> a.info == s.userInfo.value.value
    ensures a.Crashed? <==> s.userInfo == Portal.Present(None)
    ensures s.userInfo.Absent? ==> a == Portal.Denied(Portal.NotAuthorized)
    ensures s.userInfo.Present? && s.userInfo.value.Some? && !s.userInfo.value.value.canEditUsers ==>
              a == Portal.Denied(Portal.NotAuthorized)
  {
    Portal.AdminGate(s, Portal.NotAuthorized)
  }

  /** The choices the form's widgets offer. */
  const Departments: seq<string> := ["IT", "Sales", "Finance", "HR", "Marketing", "Logistics", "R&D"]
  const Roles: seq<string> := ["VIEWER", "ADMIN", "SUPER_ADMIN"]
  const BrandOptions: seq<string> := ["Catch", "Pulse", "Pass Pass", "Chingles", "Mouth Freshener"]

  /** The submitted form, as the widgets hand it over. */
  datatype Form = Form(
    userId: string,
    fullName: string,
    email: string,
    department: string,
    role: string,
    brands: seq<string>,
    password: string)

  datatype Verdict = MissingFields | BadEmail | Accepted

  predicate Complete(f: Form) {
    f.userId != "" && f.fullName != "" && f.email != "" && f.password != ""
  }

  /** The submit checks: required fields first, then the email's `@` and `.`. */
  function Validate(f: Form): (v: Verdict)
    ensures v == MissingFields <==> !Complete(f)
    ensures v == BadEmail <==> Complete(f) && ('@' !in f.email || '.' !in f.email)
    ensures v == Accepted <==> Complete(f) && '@' in f.email && '.' in f.email
  {
    if !Complete(f) then MissingFields
    else if '@' !in f.email || '.' !in f.email then BadEmail
    else Accepted
  }

  /** The hint shown under the password field. */
  datatype Hint = NoHint | Weak | Strong

  function PasswordHint(pw: string): (h: Hint)
    ensures h == NoHint <==> pw == ""
    ensures h == Weak <==> 0 < |pw| < 6
  {
    if pw == "" then NoHint else if |pw| < 6 then Weak else Strong
  }

  /** The hint is advisory: replacing a password by any other non-empty one,
      weak or strong, never changes the verdict. */
  lemma HintNeverBlocks(f: Form, pw: string)
    requires f.password != "" && pw != ""
    ensures Validate(f.(password := pw)) == Validate(f)
    ensures PasswordHint(pw) == Weak && Validate(f) == Accepted ==> Validate(f.(password := pw)) == Accepted
  {
  }

  /** An empty email is reported as a missing field, never as a bad format. */
  lemma RequiredCheckComesFirst(f: Form)
    requires f.email == ""
    ensures Validate(f) == MissingFields
  {
  }

  /** `", ".join(brand) if brand else "None"`: a selection of comma-free
      brands reads back from the stored string, and the string is plain (no
      quote, no backslash) when every brand is. */
  function BrandString(brands: seq<string>): (r: string)
    ensures brands == [] ==> r == "None"
    ensures brands != [] ==> forall k :: 0 <= k < |brands| ==> Contains(r, brands[k])
    ensures brands != [] && (forall k :: 0 <= k < |brands| ==> ',' !in brands[k]) ==> SplitList(r) == brands
    ensures (forall k :: 0 <= k < |brands| ==> Plain(brands[k])) ==> Plain(r)
  {
    if brands == [] then "None"
    else
      JoinContainsParts(brands, ", ");
      CommaFreeListReadsBack(brands);
      JoinAvoids(brands, ", ", '\'');
      JoinAvoids(brands, ", ", '\\');
      Join(brands, ", ")
  }

  /** A character in neither the parts nor the separator is not in their join. */
  lemma {:induction false} JoinAvoids(parts: seq<string>, sep: string, c: char)
    requires c !in sep
    ensures (forall k :: 0 <= k < |parts| ==> c !in parts[k]) ==> c !in Join(parts, sep)
  {
    if |parts| > 1 {
      JoinAvoids(parts[1..], sep, c);
      if forall k :: 0 <= k < |parts| ==> c !in parts[k] {
        assert forall k :: 0 <= k < |parts[1..]| ==> parts[1..][k] == parts[k + 1];
      }
    }
  }

  /** Every part occurs in a join. */
  lemma {:induction false} JoinContainsParts(parts: seq<string>, sep: string)
    ensures forall k :: 0 <= k < |parts| ==> Contains(Join(parts, sep), parts[k])
  {
    if |parts| == 1 {
      assert StartsWith(parts[0], parts[0]);
    } else if |parts| > 1 {
      var rest := Join(parts[1..], sep);
      JoinContainsParts(parts[1..], sep);
      assert Join(parts, sep) == (parts[0] + sep) + rest;
      assert StartsWith(Join(parts, sep), parts[0]);
      forall k | 1 <= k < |parts|
        ensures Contains(Join(parts, sep), parts[k])
      {
        assert parts[1..][k - 1] == parts[k];
        ContainsInSuffix(parts[0] + sep, rest, parts[k]);
      }
    }
  }

  lemma {:induction false} ContainsInSuffix(a: string, b: string, t: string)
    requires Contains(b, t)
    ensures Contains(a + b, t)
    decreases |a|
  {
    if |a| > 0 {
      assert (a + b)[1..] == a[1..] + b;
      ContainsInSuffix(a[1..], b, t);
    } else {
      assert a + b == b;
    }
  }

  /** With comma-free brand names, the brand string has one comma between
      each two brands, so the selection's size can be read back. */
  lemma {:induction false} BrandStringCommas(brands: seq<string>)
    requires brands != []
    requires forall k :: 0 <= k < |brands| ==> ',' !in brands[k]
    ensures CharCount(BrandString(brands), ',') == |brands| - 1
  {
    if |brands| == 1 {
      CharCountZero(brands[0], ',');
    } else {
      BrandStringCommas(brands[1..]);
      var rest := Join(brands[1..], ", ");
      CharCountZero(brands[0], ',');
      CharCountAppend(brands[0], ", ", ',');
      CharCountAppend(brands[0] + ", ", rest, ',');
    }
  }

  /** What pressing "Finalize & Provision Account" leads to. */
  datatype Submission =
    | Blocked(access: Portal.Access)
    | Rejected(verdict: Verdict)
    | Submitted(provisioning: Database.Provisioning)

  /** The page: the gate, the validation, then provisioning with the brand
      string and the signed-in admin's email as actor. */
  function Submit(s: Portal.Store, f: Form, link: Link, host: Host): (r: Submission)
    ensures r.Blocked? <==> !Gate(s).Granted?
    ensures r.Blocked? ==> r.access == Gate(s)
    ensures r.Rejected? <==> Gate(s).Granted? && Validate(f) != Accepted
    ensures r.Submitted? ==> s.userInfo.Present? && s.userInfo.value.Some? && s.userInfo.value.value.canEditUsers
    ensures r.Submitted? ==> Validate(f) == Accepted
    ensures r.Submitted? ==>
              (r.provisioning.writes == [] ||
               (r.provisioning.writes[0].UserWritten? && Some(r.provisioning.writes[0].row.email) == Verbatim(f.email)))
    ensures r.Submitted? && |r.provisioning.writes| == 3 && Plain(s.userInfo.value.value.email) ==>
              r.provisioning.writes[2].AuditWritten? && r.provisioning.writes[2].entry.changedBy == s.userInfo.value.value.email
  {
    match Gate(s)
    case Granted(admin) =>
      var v := Validate(f);
      if v != Accepted then Rejected(v)
      else Submitted(Database.Provision(link, f.userId, f.fullName, f.email, f.department,
                                        BrandString(f.brands), f.role, f.password, admin.email, host))
    case _ => Blocked(Gate(s))
  }

  /** The page's closing promise: a provisioned account with a fresh ID and
      email, and an existing role, signs in with the email and password just
      entered, and receives that role. */
  lemma NewAccountCanSignIn(s: Portal.Store, f: Form, db: Warehouse, failing: set<Stmt>, host: Host, r: RoleRow)
    requires failing !! {UserInsert, RoleInsert, UserLookup, RoleLookup}
    requires Plain(f.userId) && Plain(f.fullName) && Plain(f.email) && Plain(f.password)
    requires Plain(f.department) && Plain(f.role) && forall k :: 0 <= k < |f.brands| ==> Plain(f.brands[k])
    requires Database.FreshIdentity(db, f.userId, f.email)
    requires r in db.roles && r.roleName == f.role
    requires Submit(s, f, Online(db, failing), host).Submitted?
    ensures var p := Submit(s, f, Online(db, failing), host).provisioning;
            var o := Auth.Authenticate(Online(Database.Commit(db, p.writes), failing), f.email, f.password);
            p.ok && o.SignedIn? && o.info.email == f.email && o.info.roleName == f.role
  {
    var admin := Gate(s).info;
    assert Plain(BrandString(f.brands));
    Database.ProvisionedUserSignsIn(db, failing, f.userId, f.fullName, f.email, f.department,
                                    BrandString(f.brands), f.role, f.password, admin.email, host, r);
  }

  /** The freshness condition above is needed: an email entered with a
      trailing tab (or any whitespace other than a blank) is stored as typed.
      Sign-in strips the tab from the typed email, but the stored email keeps
      it under `TRIM`, so the new account is never found. */
  lemma TrailingTabLocksOut(db: Warehouse, failing: set<Stmt>, userId: string, name: string, core: string, c: char,
                            dept: string, brand: string, role: string, password: string, admin: string, host: Host)
    requires failing !! {UserInsert, RoleInsert, UserLookup}
    requires Database.PlainValues(userId, name, core + [c], dept, brand, role, password)
    requires core != [] && core[0] !in PyWhitespace && core[|core| - 1] !in PyWhitespace
    requires c in PyWhitespace && c != ' '
    requires forall k :: 0 <= k < |db.users| ==> !Auth.MatchesKey(db.users[k], Auth.NormalizeEmail(core + [c]))
    ensures var p := Database.Provision(Online(db, failing), userId, name, core + [c], dept, brand, role, password, admin, host);
            p.ok && Auth.Authenticate(Online(Database.Commit(db, p.writes), failing), core + [c], password) == Auth.UnknownUser
  {
    var email := core + [c];
    var p := Database.Provision(Online(db, failing), userId, name, email, dept, brand, role, password, admin, host);
    var row := Database.NewUserRow(userId, name, email, dept, brand, password);
    assert |p.writes| >= 2;
    Database.CommitProvisioning(db, p, row, RoleMapping(userId, role));
    TabbedKeysDiffer(core, c);
    NoMatchAfterAppend(db.users, row, Auth.NormalizeEmail(email));
    UnmatchedIsUnknown(Database.Commit(db, p.writes), failing, email, password);
  }

  lemma NoMatchAfterAppend(users: seq<UserRow>, row: UserRow, key: string)
    requires forall k :: 0 <= k < |users| ==> !Auth.MatchesKey(users[k], key)
    requires Auth.StoredKey(row.email) != key
    ensures forall k :: 0 <= k < |users + [row]| ==> !Auth.MatchesKey((users + [row])[k], key)
  {
    forall k | 0 <= k < |users + [row]|
      ensures !Auth.MatchesKey((users + [row])[k], key)
    {
      if k < |users| {
        assert (users + [row])[k] == users[k];
      }
    }
  }

  lemma UnmatchedIsUnknown(db: Warehouse, failing: set<Stmt>, email: string, password: string)
    requires UserLookup !in failing && Plain(email)
    requires forall k :: 0 <= k < |db.users| ==> !Auth.MatchesKey(db.users[k], Auth.NormalizeEmail(email))
    ensures Auth.Authenticate(Online(db, failing), email, password) == Auth.UnknownUser
  {
    Auth.PlainKey(email);
    Auth.NoMatchIsUnknown(db, failing, Auth.NormalizeEmail(email), password);
  }

  /** The key sign-in computes from the typed email is one character shorter
      than the key of the stored email. */
  lemma TabbedKeysDiffer(core: string, c: char)
    requires core != [] && core[0] !in PyWhitespace && core[|core| - 1] !in PyWhitespace
    requires c in PyWhitespace && c != ' '
    ensures |Auth.StoredKey(core + [c])| == |Auth.NormalizeEmail(core + [c])| + 1
  {
    StripDropsTail(core, c);
    BlankIsWhitespace(core[0]);
    SqlTrimKeepsTail(core, c);
    KeyLengths(core + [c]);
  }

  lemma KeyLengths(e: string)
    ensures |Auth.StoredKey(e)| == |SqlTrim(e)| && |Auth.NormalizeEmail(e)| == |Strip(e)|
  {
  }

  lemma BlankIsWhitespace(x: char)
    requires x !in PyWhitespace
    ensures x != ' '
  {
  }

  lemma StripDropsTail(core: string, c: char)
    requires core != [] && core[0] !in PyWhitespace && core[|core| - 1] !in PyWhitespace
    requires c in PyWhitespace
    ensures Strip(core + [c]) == core
  {
    assert AllIn([c], PyWhitespace);
    assert AllIn([], PyWhitespace);
    assert [] + core + [c] == core + [c];
    TrimUnique([], core, [c], PyWhitespace);
  }

  lemma SqlTrimKeepsTail(core: string, c: char)
    requires core != [] && core[0] != ' ' && c != ' '
    ensures SqlTrim(core + [c]) == core + [c]
  {
    var email := core + [c];
    assert email[0] !in SqlBlank && email[|email| - 1] !in SqlBlank;
    assert AllIn([], SqlBlank);
    assert [] + email + [] == email;
    TrimUnique([], email, [], SqlBlank);
  }
}
