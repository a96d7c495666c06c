/**
  The entry script (app.py): the two session keys `authenticated` and
  `user_info`, their initialisation on every run, the sign-in and sign-out
  transitions, and the navigation a signed-in session is offered.
 */
module Portal {
  import opened Tables
  import Auth

  /** A key of `st.session_state`: missing, or present with a value. */
  datatype Slot<T> = Absent | Present(value: T)

  /** The part of `st.session_state` the portal owns. */
  datatype Store = Store(authenticated: Slot<bool>, userInfo: Slot<Option<UserInfo>>)

  /** A browser session before the first run of the script. */
  const Empty: Store := Store(Absent, Absent)

  /** The state after the first run: signed out, no user record. */
  const Initial: Store := Store(Present(false), Present(None))

  /** Both keys present, and `authenticated` exactly when a user record is held. */
  predicate Consistent(s: Store) {
    && s.authenticated.Present?
    && s.userInfo.Present?
    && (s.authenticated.value <==> s.userInfo.value.Some?)
  }

  /** The top of every run: each missing key gets its initial value, and a
      key already present is left alone. */
  function Init(s: Store): (r: Store)
    ensures r.authenticated.Present? && r.userInfo.Present?
    ensures s.authenticated.Present? ==> r.authenticated == s.authenticated
    ensures s.userInfo.Present? ==> r.userInfo == s.userInfo
    ensures s == Empty ==> r == Initial && Consistent(r)
    ensures Consistent(s) ==> r == s
  {
    Store(
      if s.authenticated.Present? then s.authenticated else Present(false),
      if s.userInfo.Present? then s.userInfo else Present(None))
  }

  /** Re-running the script does not reset the session. */
  lemma InitIdempotent(s: Store)
    ensures Init(Init(s)) == Init(s)
  {
  }

  datatype Page = Dashboard | UserManagement | CreateUser | SecurityAudit | SqlStudio | EtlConsole

  /** One `st.Page(...)` of the navigation list. */
  datatype PageEntry = PageEntry(page: Page, isDefault: bool)

  function Title(p: Page): string {
    match p
    case Dashboard => "Dashboard"
    case UserManagement => "User Management"
    case CreateUser => "Create User"
    case SecurityAudit => "Security Audit"
    case SqlStudio => "SQL Studio"
    case EtlConsole => "ETL Console"
  }

  /** The pages registered for a signed-in user. */
  function NavPages(info: UserInfo): (r: seq<PageEntry>)
    ensures |r| >= 1 && r[0] == PageEntry(Dashboard, true)
    ensures forall k :: 1 <= k < |r| ==> !r[k].isDefault
    ensures !info.canEditUsers ==> |r| == 1
    ensures info.canEditUsers ==>
      |r| == 4 && r[1].page == UserManagement && r[2].page == CreateUser && r[3].page == SecurityAudit
    ensures forall k :: 0 <= k < |r| ==> r[k].page != SqlStudio && r[k].page != EtlConsole
  {
    [PageEntry(Dashboard, true)]
    + (if info.canEditUsers
       then [PageEntry(UserManagement, false), PageEntry(CreateUser, false), PageEntry(SecurityAudit, false)]
       else [])
  }

  /** What a run of the script shows. `Crash` is the uncaught error when the
      session claims to be signed in without a user record. */
  datatype View = LoginForm | Navigation(pages: seq<PageEntry>, signedInAs: string) | Crash

  function Render(raw: Store): (v: View)
    ensures v == LoginForm <==> !Init(raw).authenticated.value
    ensures Consistent(Init(raw)) ==> !v.Crash?
    ensures v.Navigation? ==> Init(raw).userInfo.value.Some?
    ensures v.Navigation? ==> v.pages == NavPages(Init(raw).userInfo.value.value)
                              && v.signedInAs == Init(raw).userInfo.value.value.fullName
  {
    var s := Init(raw);
    if !s.authenticated.value then LoginForm
    else match s.userInfo.value
      case None => Crash
      case Some(info) => Navigation(NavPages(info), info.fullName)
  }

  /** Messages shown after pressing "Secure Sign In". */
  datatype Notice =
    | InvalidLogin               // the one generic error for every `None`
    | NoRoleWarning(userId: string)
    | AuthSystemError            // the role query raised
    | Traceback                  // an uncaught exception ended the run

  /** The messages `authenticate_user` itself shows for an outcome. */
  function AuthNotices(o: Auth.AuthOutcome): seq<Notice> {
    match o
    case NoRoleMapped(uid) => [NoRoleWarning(uid)]
    case RoleQueryError => [AuthSystemError]
    case _ => []
  }

  datatype Step = Step(store: Store, notices: seq<Notice>)

  /** The effect of an authentication outcome `o` on a signed-out session `s`. */
  function Attempt(s: Store, o: Auth.AuthOutcome): (r: Step)
    ensures o.SignedIn? ==> r == Step(Store(Present(true), Present(Some(o.info))), [])
    ensures !o.SignedIn? ==> r.store == s
    ensures o.LookupRaised? ==> r.notices == [Traceback]
    ensures o.NoSession? || o.UnknownUser? || o.WrongPassword? ==> r.notices == [InvalidLogin]
    ensures o.NoRoleMapped? ==> r.notices == [NoRoleWarning(o.userId), InvalidLogin]
    ensures o.RoleQueryError? ==> r.notices == [AuthSystemError, InvalidLogin]
  {
    match Auth.ToReturned(o)
    case Raises => Step(s, [Traceback])
    case Returns(None) => Step(s, AuthNotices(o) + [InvalidLogin])
    case Returns(Some(info)) => Step(Store(Present(true), Present(Some(info))), [])
  }

  /** Pressing "Secure Sign In" with `email` and `password`. The form exists
      only while signed out; a signed-in session is unaffected. */
  function SignIn(raw: Store, link: Link, email: string, password: string): (r: Step)
    ensures Init(raw).authenticated.value ==> r == Step(Init(raw), [])
    ensures !Init(raw).authenticated.value ==> r == Attempt(Init(raw), Auth.Authenticate(link, email, password))
    ensures Consistent(Init(raw)) ==> Consistent(r.store)
  {
    var s := Init(raw);
    if s.authenticated.value then Step(s, [])
    else Attempt(s, Auth.Authenticate(link, email, password))
  }

  /** Pressing "Sign Out" in the sidebar. The sidebar exists only while signed
      in with a user record. */
  function SignOut(raw: Store): (r: Store)
    ensures Init(raw).authenticated.value && Init(raw).userInfo.value.Some? ==> r == Initial
    ensures !Init(raw).authenticated.value ==> r == Init(raw)
    ensures Consistent(Init(raw)) ==> Consistent(r)
  {
    var s := Init(raw);
    if s.authenticated.value && s.userInfo.value.Some? then Initial else s
  }

  /** Signing in from the initial state and then signing out returns to the
      initial state, whatever the sign-in attempt's outcome. */
  lemma SignInThenSignOut(link: Link, email: string, password: string)
    ensures SignOut(SignIn(Initial, link, email, password).store) == Initial
  {
  }

  /** A session that came through `Init` from nothing and any sequence of
      sign-ins and sign-outs never crashes the navigation, and shows the
      login form exactly when not signed in. */
  lemma ReachableRendersCleanly(s: Store)
    requires Consistent(s)
    ensures Render(s).LoginForm? <==> s.userInfo.value.None?
    ensures Render(s).Navigation? <==> s.userInfo.value.Some?
  {
  }

  /** What a browser session does between runs of the script. */
  datatype Event = Rerun | Submit(link: Link, email: string, password: string) | SignOutClick

  function Apply(s: Store, e: Event): Store {
    match e
    case Rerun => Init(s)
    case Submit(link, email, password) => SignIn(s, link, email, password).store
    case SignOutClick => SignOut(s)
  }

  /** The session after the first run and then `events`, in order. */
  function Replay(events: seq<Event>): Store
    decreases |events|
  {
    if events == [] then Initial
    else Apply(Replay(events[..|events| - 1]), events[|events| - 1])
  }

  /** Every session the portal can reach is consistent. */
  lemma {:induction false} ReplayConsistent(events: seq<Event>)
    ensures Consistent(Replay(events))
    decreases |events|
  {
    if events != [] {
      ReplayConsistent(events[..|events| - 1]);
    }
  }

  /** The event is a sign-in attempt that authenticated exactly `info`. */
  predicate SignedInBy(e: Event, info: UserInfo) {
    e.Submit? && Auth.Authenticate(e.link, e.email, e.password) == Auth.SignedIn(info)
  }

  /** A session holds a user record only if some sign-in in its history
      authenticated exactly that record: it is never restored from elsewhere. */
  lemma {:induction false} ReplayHoldsOnlyAuthenticated(events: seq<Event>)
    ensures Replay(events).userInfo.value.Some? ==>
      exists k :: 0 <= k < |events| && SignedInBy(events[k], Replay(events).userInfo.value.value)
    decreases |events|
  {
    if events != [] {
      var prefix := events[..|events| - 1];
      ReplayHoldsOnlyAuthenticated(prefix);
      ReplayConsistent(prefix);
      var s := Replay(prefix);
      var e := events[|events| - 1];
      var s' := Replay(events);
      if s'.userInfo.value.Some? {
        if e.Submit? && !s.authenticated.value
           && Auth.Authenticate(e.link, e.email, e.password).SignedIn? {
          assert SignedInBy(events[|events| - 1], s'.userInfo.value.value);
        } else {
          assert s'.userInfo == s.userInfo;
          var k :| 0 <= k < |prefix| && SignedInBy(prefix[k], s.userInfo.value.value);
          assert events[k] == prefix[k];
        }
      }
    }
  }

  /** Who may open an admin page, and why a page refuses. */
  datatype Denial = NotSignedIn | SessionExpired | NotAuthorized
  datatype Access = Granted(info: UserInfo) | Denied(why: Denial) | Crashed

  /** The gate of the pages that only require a signed-in user:
      a missing or empty `user_info` is refused with the page's message `why`. */
  function SignedInGate(s: Store, why: Denial): (a: Access)
    ensures a.Granted? <==> s.userInfo.Present? && s.userInfo.value.Some?
    ensures a.Granted? ==> a.info == s.userInfo.value.value
    ensures !a.Granted? ==> a == Denied(why)
  {
    if s.userInfo.Absent? || s.userInfo.value.None? then Denied(why)
    else Granted(s.userInfo.value.value)
  }

  /** The admin gates read `user_info.get('CAN_EDIT_USERS')`: granted only for
      a present record with the flag set. Calling `.get` on a present `None`
      raises. What a missing key yields differs per page. */
  function AdminGate(s: Store, whenMissing: Denial): (a: Access)
    ensures a.Granted? <==> s.userInfo.Present? && s.userInfo.value.Some? && s.userInfo.value.value.canEditUsers
    ensures a.Granted? ==> a.info == s.userInfo.value.value
    ensures a.Crashed? <==> s.userInfo == Present(None)
    ensures s.userInfo.Absent? ==> a == Denied(whenMissing)
    ensures s.userInfo.Present? && s.userInfo.value.Some? && !s.userInfo.value.value.canEditUsers ==>
              a == Denied(NotAuthorized)
  {
    match s.userInfo
    case Absent => Denied(whenMissing)
    case Present(None) => Crashed
    case Present(Some(info)) => if info.canEditUsers then Granted(info) else Denied(NotAuthorized)
  }

  /** In a consistent session, a signed-in admin gets past every admin gate,
      and every admin gate is at least as strict as the sign-in gate. */
  lemma AdminGateImpliesSignedIn(s: Store, whenMissing: Denial, why: Denial)
    ensures AdminGate(s, whenMissing).Granted? ==> SignedInGate(s, why) == AdminGate(s, whenMissing)
    ensures Consistent(s) && s.authenticated.value ==> !AdminGate(s, whenMissing).Crashed?
  {
  }
}
