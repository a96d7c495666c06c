/**
  The security audit page (pages/3_Audit_Logs.py): the log fetched newest
  first, its metrics, and the event, operator and date-range filters.
  Timestamps are whole seconds since the epoch and dates are day numbers.
 */
module AuditLogs {
  import opened Strings
  import opened Seqs
  import opened Tables
  import Portal

  /** The page's gate: a missing or empty `user_info` gets "Session expired";
      any signed-in user is let through. */
  function Gate(s: Portal.Store): (a: Portal.Access)
    ensures a.Granted? <==> s.userInfo.Present? && s.userInfo.value.Some?
    ensures a.Granted? ==> a.info == s.userInfo.value.value
    ensures !a.Granted? ==> a == Portal.Denied(Portal.SessionExpired)
  {
    Portal.SignedInGate(s, Portal.SessionExpired)
  }

  /** A fetched AUDIT_LOGS row. ACTION_TYPE may be NULL. */
  datatype LogRecord = LogRecord(
    auditId: string,
    actionType: Option<string>,
    actionAt: int,
    changedBy: string,
    hostIp: string,
    hostName: string,
    details: string)

  const SecondsPerDay: int := 86400

  function At(e: LogRecord): int {
    e.actionAt
  }

  /** `ORDER BY ACTION_AT DESC`: the fetched log is newest first. */
  ghost predicate NewestFirst(log: seq<LogRecord>) {
    Descending(log, At)
  }

  /** The calendar day of a timestamp (`.dt.date`). */
  function DateOf(t: int): int {
    t / SecondsPerDay
  }

  function RecentMask(now: int): LogRecord -> bool {
    (e: LogRecord) => e.actionAt > now - SecondsPerDay
  }

  /** The "Last 24h Activity" metric: entries strictly after one day before `now`. */
  function Last24h(log: seq<LogRecord>, now: int): (n: nat)
    ensures n <= |log|
    ensures n == 0 <==> forall k :: 0 <= k < |log| ==> log[k].actionAt <= now - SecondsPerDay
  {
    FilterEmpty(log, RecentMask(now));
    |Filter(log, RecentMask(now))|
  }

  /** On a newest-first log the recent entries are exactly the first
      `Last24h` entries. */
  lemma RecentAreNewest(log: seq<LogRecord>, now: int)
    requires NewestFirst(log)
    ensures Filter(log, RecentMask(now)) == log[..Last24h(log, now)]
    ensures forall k :: 0 <= k < |log| ==> (k < Last24h(log, now) <==> log[k].actionAt > now - SecondsPerDay)
  {
    var keep := RecentMask(now);
    assert forall i, j :: 0 <= i < j < |log| && keep(log[j]) ==> keep(log[i]) by {
      forall i, j | 0 <= i < j < |log| && keep(log[j])
        ensures keep(log[i])
      {
        assert At(log[i]) >= At(log[j]);
      }
    }
    FilterIsPrefix(log, keep);
  }

  /** The "Unique Operators" metric is the size of this set. */
  function Operators(log: seq<LogRecord>): (ops: set<string>)
    ensures forall k :: 0 <= k < |log| ==> log[k].changedBy in ops
    ensures forall a :: a in ops ==> exists k :: 0 <= k < |log| && log[k].changedBy == a
  {
    set k | 0 <= k < |log| :: log[k].changedBy
  }

  /** `ACTION_TYPE.str.contains('DELETE|UPDATE|CREATE', case=False, na=False)`. */
  predicate IsCritical(e: LogRecord) {
    match e.actionType
    case None => false
    case Some(t) => CriticalType(t)
  }

  /** `str.upper().str.contains('DELETE|UPDATE|CREATE')`: one of the three
      keywords occurs somewhere in the upper-cased type. */
  function CriticalType(t: string): (b: bool)
    ensures b <==> exists i :: OccursAt(Upper(t), "DELETE", i) || OccursAt(Upper(t), "UPDATE", i)
                               || OccursAt(Upper(t), "CREATE", i)
  {
    var u := Upper(t);
    ContainsMeansOccurs(u, "DELETE");
    ContainsMeansOccurs(u, "UPDATE");
    ContainsMeansOccurs(u, "CREATE");
    Contains(u, "DELETE") || Contains(u, "UPDATE") || Contains(u, "CREATE")
  }

  /** The "Provisioning Events" metric. */
  function CriticalCount(log: seq<LogRecord>): (n: nat)
    ensures n <= |log|
    ensures n == 0 <==> forall k :: 0 <= k < |log| ==> !IsCritical(log[k])
  {
    FilterEmpty(log, IsCritical);
    |Filter(log, IsCritical)|
  }

  /** The test ignores the letter case of ACTION_TYPE. */
  lemma CriticalIgnoresCase(e: LogRecord, t: string)
    requires e.actionType == Some(t)
    ensures IsCritical(e.(actionType := Some(Lower(t)))) == IsCritical(e)
  {
    UpperLower(t);
  }

  /** The entries the portal itself writes: user updates and provisioning are
      critical, SQL Studio executions are not, and a NULL type never is. */
  lemma PortalActionsClassified()
    ensures CriticalType("UPDATE_USER") && CriticalType("CREATE_USER")
    ensures !CriticalType("SQL_EXECUTION")
  {
    UpdateIsCritical();
    CreateIsCritical();
    ExecutionIsNotCritical();
  }

  lemma UpdateIsCritical()
    ensures CriticalType("UPDATE_USER")
  {
    UpperOfUpper("UPDATE_USER");
    assert StartsWith("UPDATE_USER", "UPDATE");
  }

  lemma CreateIsCritical()
    ensures CriticalType("CREATE_USER")
  {
    UpperOfUpper("CREATE_USER");
    assert StartsWith("CREATE_USER", "CREATE");
  }

  lemma ExecutionIsNotCritical()
    ensures !CriticalType("SQL_EXECUTION")
  {
    var x := "SQL_EXECUTION";
    UpperOfUpper(x);
    assert 'D' !in x && 'P' !in x && 'R' !in x;
    NoCriticalLetters(x);
  }

  /** A type whose upper-cased text lacks D, P or R names no critical action. */
  lemma NoCriticalLetters(t: string)
    requires var u := Upper(t); 'D' !in u && 'P' !in u && 'R' !in u
    ensures !CriticalType(t)
  {
    var u := Upper(t);
    LetterMissing(u, "DELETE", 'D');
    LetterMissing(u, "UPDATE", 'P');
    LetterMissing(u, "CREATE", 'R');
  }

  lemma UpperOfUpper(s: string)
    requires forall k :: 0 <= k < |s| ==> !('a' <= s[k] <= 'z')
    ensures Upper(s) == s
  {
  }

  /** A text lacking one of the letters of `t` does not contain `t`. */
  lemma {:induction false} LetterMissing(s: string, t: string, c: char)
    requires c in t && c !in s
    ensures !Contains(s, t)
    decreases |s|
  {
    if |t| <= |s| {
      assert c in s[..|t|] ==> c in s;
    }
    if |s| > 0 {
      assert c !in s[1..] by {
        assert forall k :: 0 <= k < |s[1..]| ==> s[1..][k] == s[k + 1];
      }
      LetterMissing(s[1..], t, c);
    }
  }

  /** Whether an entry stays in the view. The date range applies only when
      exactly two dates are chosen, and includes both end days. */
  predicate Kept(e: LogRecord, events: seq<Option<string>>, operators: seq<string>, dates: seq<int>) {
    && (events == [] || e.actionType in events)
    && (operators == [] || e.changedBy in operators)
    && (|dates| == 2 ==> dates[0] <= DateOf(e.actionAt) <= dates[1])
  }

  function KeptMask(events: seq<Option<string>>, operators: seq<string>, dates: seq<int>): LogRecord -> bool {
    (e: LogRecord) => Kept(e, events, operators, dates)
  }

  function EventMask(events: seq<Option<string>>): LogRecord -> bool {
    (e: LogRecord) => e.actionType in events
  }

  function OperatorMask(operators: seq<string>): LogRecord -> bool {
    (e: LogRecord) => e.changedBy in operators
  }

  function DayMask(first: int, last: int): LogRecord -> bool {
    (e: LogRecord) => first <= DateOf(e.actionAt) <= last
  }

  /** `filtered_df`: the event mask, the operator mask and the date mask,
      each applied only when selected. */
  function FilterLog(log: seq<LogRecord>, events: seq<Option<string>>, operators: seq<string>, dates: seq<int>)
    : (r: seq<LogRecord>)
    ensures events == [] && operators == [] && |dates| != 2 ==> r == log
    ensures forall k :: 0 <= k < |r| ==> r[k] in log && Kept(r[k], events, operators, dates)
    ensures forall k :: 0 <= k < |log| && Kept(log[k], events, operators, dates) ==> log[k] in r
  {
    var a := if events != [] then Filter(log, EventMask(events)) else log;
    var b := if operators != [] then Filter(a, OperatorMask(operators)) else a;
    if |dates| == 2 then Filter(b, DayMask(dates[0], dates[1])) else b
  }

  /** Filtering by one mask when it is selected, and not at all otherwise,
      is filtering by the mask that passes everything when unselected. */
  lemma Optional(s: seq<LogRecord>, on: bool, m: LogRecord -> bool, m': LogRecord -> bool)
    requires forall k :: 0 <= k < |s| ==> m'(s[k]) == (!on || m(s[k]))
    ensures (if on then Filter(s, m) else s) == Filter(s, m')
  {
    if on {
      FilterExtensional(s, m, m');
    } else {
      FilterAll(s, m');
    }
  }

  /** Each selection as a mask that passes everything when nothing is chosen. */
  function EventChoice(events: seq<Option<string>>): LogRecord -> bool {
    (e: LogRecord) => events == [] || e.actionType in events
  }

  function OperatorChoice(operators: seq<string>): LogRecord -> bool {
    (e: LogRecord) => operators == [] || e.changedBy in operators
  }

  function DateChoice(dates: seq<int>): LogRecord -> bool {
    (e: LogRecord) => |dates| == 2 ==> dates[0] <= DateOf(e.actionAt) <= dates[1]
  }

  function EventOperatorChoice(events: seq<Option<string>>, operators: seq<string>): LogRecord -> bool {
    (e: LogRecord) => (events == [] || e.actionType in events) && (operators == [] || e.changedBy in operators)
  }

  /** The event and operator masks in a row are one filter. */
  lemma FirstTwoMasks(log: seq<LogRecord>, events: seq<Option<string>>, operators: seq<string>)
    ensures var a := if events != [] then Filter(log, EventMask(events)) else log;
            (if operators != [] then Filter(a, OperatorMask(operators)) else a)
              == Filter(log, EventOperatorChoice(events, operators))
  {
    Optional(log, events != [], EventMask(events), EventChoice(events));
    var a := Filter(log, EventChoice(events));
    Optional(a, operators != [], OperatorMask(operators), OperatorChoice(operators));
    FilterFilter(log, EventChoice(events), OperatorChoice(operators), EventOperatorChoice(events, operators));
  }

  /** The three masks in a row are one filter by `Kept`. */
  lemma FilterLogIsFilter(log: seq<LogRecord>, events: seq<Option<string>>, operators: seq<string>, dates: seq<int>)
    ensures FilterLog(log, events, operators, dates) == Filter(log, KeptMask(events, operators, dates))
  {
    FirstTwoMasks(log, events, operators);
    var b := Filter(log, EventOperatorChoice(events, operators));
    Optional(b, |dates| == 2, DayMask(if |dates| == 2 then dates[0] else 0, if |dates| == 2 then dates[1] else 0),
             DateChoice(dates));
    FilterFilter(log, EventOperatorChoice(events, operators), DateChoice(dates), KeptMask(events, operators, dates));
  }

  /** The view is a subsequence of the fetched log and stays newest first. */
  lemma FilterLogKeepsOrder(log: seq<LogRecord>, events: seq<Option<string>>, operators: seq<string>, dates: seq<int>)
    ensures IsSubsequence(FilterLog(log, events, operators, dates), log)
    ensures NewestFirst(log) ==> NewestFirst(FilterLog(log, events, operators, dates))
  {
    FilterLogIsFilter(log, events, operators, dates);
    FilterIsSubsequence(log, KeptMask(events, operators, dates));
    if NewestFirst(log) {
      FilterKeepsDescending(log, KeptMask(events, operators, dates), At);
    }
  }

  /** A reversed date range keeps nothing. */
  lemma ReversedRangeIsEmpty(log: seq<LogRecord>, events: seq<Option<string>>, operators: seq<string>, dates: seq<int>)
    requires |dates| == 2 && dates[0] > dates[1]
    ensures FilterLog(log, events, operators, dates) == []
  {
    FilterLogIsFilter(log, events, operators, dates);
    FilterEmpty(log, KeptMask(events, operators, dates));
  }
}
