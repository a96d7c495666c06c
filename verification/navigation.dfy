/**
  The navigation of app.py together with the pages' own gates: every page
  the navigation offers a signed-in session lets that session in, and the
  pages it leaves out for a non-admin are the ones whose gate wants
  CAN_EDIT_USERS.
 */
module Navigation {
  import opened Tables
  import Portal
  import UserMgmt
  import AuditLogs
  import CreateUser
  import SqlStudio
  import EtlConsole

  /** The Dashboard's gate: a missing or empty `user_info` is asked to log in. */
  function DashboardGate(s: Portal.Store): (a: Portal.Access)
    ensures a.Granted? <==> s.userInfo.Present? && s.userInfo.value.Some?
    ensures !a.Granted? ==> a == Portal.Denied(Portal.NotSignedIn)
  {
    Portal.SignedInGate(s, Portal.NotSignedIn)
  }

  /** The gate at the top of each page's script. */
  function PageGate(p: Portal.Page, s: Portal.Store): Portal.Access {
    match p
    case Dashboard => DashboardGate(s)
    case UserManagement => UserMgmt.Gate(s)
    case CreateUser => CreateUser.Gate(s)
    case SecurityAudit => AuditLogs.Gate(s)
    case SqlStudio => SqlStudio.Gate(s)
    case EtlConsole => EtlConsole.Gate(s)
  }

  /** Every page the navigation of a rendered session lists opens for that
      session, with the session's own record. */
  lemma ListedPagesOpen(s: Portal.Store)
    requires Portal.Consistent(s)
    ensures Portal.Render(s).Navigation? ==>
              forall k :: 0 <= k < |Portal.Render(s).pages| ==>
                PageGate(Portal.Render(s).pages[k].page, s) == Portal.Granted(s.userInfo.value.value)
  {
    if Portal.Render(s).Navigation? {
      var info := s.userInfo.value.value;
      var pages := Portal.NavPages(info);
      forall k | 0 <= k < |pages|
        ensures PageGate(pages[k].page, s) == Portal.Granted(info)
      {
        if k > 0 {
          assert info.canEditUsers;
        }
      }
    }
  }

  /** A signed-in non-admin is offered only the Dashboard. Of the pages left
      out, the three whose gate reads CAN_EDIT_USERS refuse the session; the
      user management and audit pages check only that someone is signed in. */
  lemma NonAdminGates(s: Portal.Store)
    requires Portal.Consistent(s) && s.userInfo.value.Some? && !s.userInfo.value.value.canEditUsers
    ensures Portal.Render(s).Navigation? && |Portal.Render(s).pages| == 1
    ensures forall p :: p in {Portal.CreateUser, Portal.SqlStudio, Portal.EtlConsole} ==>
              PageGate(p, s) == Portal.Denied(Portal.NotAuthorized)
    ensures PageGate(Portal.UserManagement, s).Granted? && PageGate(Portal.SecurityAudit, s).Granted?
  {
  }

  /** No page opens without a user record. */
  lemma SignedOutSeesNothing(s: Portal.Store, p: Portal.Page)
    requires Portal.Consistent(s) && s.userInfo.value.None?
    ensures Portal.Render(s) == Portal.LoginForm
    ensures !PageGate(p, s).Granted?
  {
  }
}
