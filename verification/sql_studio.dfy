/**
  The SQL Studio page (pages/5_SQL_Studio.py): an admin types a statement,
  it runs on its own connection, reads are shown capped at 5000 rows, other
  statements are committed, and a successful run is audited with the full
  statement text.
 */
module SqlStudio {
  import opened Strings
  import opened Tables
  import Portal

  /** `st.session_state.get("user_info", {})`: a missing key reads as an
      empty record and is refused; a present `None` makes `.get` raise. */
  function Gate(s: Portal.Store): (a: Portal.Access)
    ensures a.Granted? <==> s.userInfo.Present? && s.userInfo.value.Some? && s.userInfo.value.value.canEditUsers
    ensures a.Granted? ==> a.info == s.userInfo.value.value
    ensures a.Crashed? <==> s.userInfo == Portal.Present(None)
    ensures s.userInfo.Absent? ==> a == Portal.Denied(Portal.NotAuthorized)
    ensures s.userInfo.Present? && s.userInfo.value.Some? && !s.userInfo.value.value.canEditUsers ==>
              a == Portal.Denied(Portal.NotAuthorized)
  {
    Portal.AdminGate(s, Portal.NotAuthorized)
  }

  /** `cursor.fetchmany(5000)`. */
  const FetchCap: nat := 5000

  const ReadKeyword := "select"

  /** `query.strip().lower().startswith("select")`: the stripped statement
      begins with the six letters of "select", each in either case. */
  function IsRead(q: string): (b: bool)
    ensures b <==> |Strip(q)| >= |ReadKeyword|
                   && forall k :: 0 <= k < |ReadKeyword| ==> LowerChar(Strip(q)[k]) == ReadKeyword[k]
  {
    LowerPrefix(Strip(q), ReadKeyword);
    StartsWith(Lower(Strip(q)), ReadKeyword)
  }

  /** The statements of the page that can raise: opening the connection,
      executing the typed statement, and writing the audit row (which
      includes the host lookup). */
  datatype Faults = Faults(connect: bool, execute: bool, audit: bool)

  /** What the page shows for a statement that ran. */
  datatype Shown = Rows(rows: seq<seq<string>>) | Acknowledged

  /** What pressing "Execute" leads to. `committed` says whether the typed
      statement itself was committed. */
  datatype Outcome =
    | EmptyQuery
    | Failed(executed: bool, committed: bool, shown: Option<Shown>)
    | Completed(view: Shown, committed: bool, entry: AuditEntry)

  function Min(a: nat, b: nat): nat {
    if a <= b then a else b
  }

  /** The shown result: a read shows the first rows up to the cap; anything
      else is committed and acknowledged. */
  function ShowResult(q: string, result: seq<seq<string>>): (v: Shown)
    ensures v.Rows? <==> IsRead(q)
    ensures v.Rows? ==> |v.rows| <= FetchCap && |v.rows| <= |result|
    ensures v.Rows? ==> v.rows == result[..|v.rows|]
    ensures v.Rows? && |result| <= FetchCap ==> v.rows == result
    ensures v.Rows? && |result| >= FetchCap ==> |v.rows| == FetchCap
  {
    if IsRead(q) then Rows(result[..Min(|result|, FetchCap)]) else Acknowledged
  }

  /** The execution logic once the gate has passed. `result` is what the
      warehouse would return for `q`. The audit row is written only after the
      statement ran, with the statement exactly as typed (it is passed as a
      parameter, so quotes need no escaping); a failing audit write does not
      undo a write that was already committed. */
  function Execute(admin: UserInfo, q: string, faults: Faults, result: seq<seq<string>>, host: Host): (o: Outcome)
    ensures o == EmptyQuery <==> AllIn(q, PyWhitespace)
    ensures o.Completed? <==> !AllIn(q, PyWhitespace) && !faults.connect && !faults.execute && !faults.audit
    ensures o.Completed? ==> o.entry == AuditEntry("SQL_EXECUTION", q, admin.email, host.ip, host.name)
    ensures o.Completed? || (o.Failed? && o.executed) ==> o.committed == !IsRead(q)
    ensures o.Failed? && !o.executed ==> !o.committed && o.shown == None
    ensures o.Failed? && o.executed ==> faults.audit && o.shown == Some(ShowResult(q, result))
    ensures o.Completed? ==> o.view == ShowResult(q, result)
    ensures !AllIn(q, PyWhitespace) && !IsRead(q) && !faults.connect && !faults.execute && faults.audit ==>
              o == Failed(true, true, Some(Acknowledged))
  {
    StripBlank(q);
    if Strip(q) == [] then EmptyQuery
    else if faults.connect || faults.execute then Failed(false, false, None)
    else
      var shown := ShowResult(q, result);
      if faults.audit then Failed(true, !IsRead(q), Some(shown))
      else Completed(shown, !IsRead(q), AuditEntry("SQL_EXECUTION", q, admin.email, host.ip, host.name))
  }

  /** The whole page: the gate, then the execution logic with the admin's record. */
  datatype Page = Gated(access: Portal.Access) | Ran(outcome: Outcome)

  function Visit(s: Portal.Store, q: string, faults: Faults, result: seq<seq<string>>, host: Host): (p: Page)
    ensures p.Ran? <==> s.userInfo.Present? && s.userInfo.value.Some? && s.userInfo.value.value.canEditUsers
    ensures p.Ran? ==> p.outcome == Execute(s.userInfo.value.value, q, faults, result, host)
    ensures p.Gated? ==> p.access == Gate(s) && !p.access.Granted?
  {
    match Gate(s)
    case Granted(info) => Ran(Execute(info, q, faults, result, host))
    case _ => Gated(Gate(s))
  }

  /** The read test ignores surrounding whitespace and letter case. */
  lemma ReadIgnoresCaseAndPadding(a: string, q: string, b: string, q': string)
    requires AllIn(a, PyWhitespace) && AllIn(b, PyWhitespace)
    requires Lower(q) == Lower(q')
    ensures IsRead(a + q + b) == IsRead(q')
  {
    TrimIgnoresPadding(a, q, b, PyWhitespace);
    LowerStripCommute(q);
    LowerStripCommute(q');
    assert Lower(Strip(a + q + b)) == Lower(Strip(q'));
  }
}
