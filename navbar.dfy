/**
 * The navigation bar's login state: `isLoggedIn`, `isAdmin` and `loading`, driven by the auth
 * client's state-change events and by `checkAuth`, whose lookup may complete after other events.
 */
module Navbar {
  import opened Wrappers
  import opened Auth

  /** The events `onAuthStateChange` reports. */
  datatype AuthEvent = InitialSession | SignedIn | SignedOut | TokenRefreshed | UserUpdated | PasswordRecovery

  /** The three state variables of the component. */
  datatype NavState = NavState(isLoggedIn: bool, isAdmin: bool, loading: bool)

  /** The state before anything has happened: logged out, not admin, loading. */
  const Initial := NavState(false, false, true)

  /** The administrator menu only ever appears for a logged-in user. */
  predicate Consistent(s: NavState) {
    s.isAdmin ==> s.isLoggedIn
  }

  /** The state-change callback: sign-in and token refresh set both flags from the session, sign-out clears them. */
  function OnAuthEvent(s: NavState, event: AuthEvent, session: Option<Identity>): (r: NavState)
    ensures (event == SignedIn || event == TokenRefreshed) ==>
      r.isLoggedIn && (r.isAdmin <==> session.Some? && IsAdmin(session.value))
    ensures event == SignedOut ==> !r.isLoggedIn && !r.isAdmin
    ensures !(event == SignedIn || event == TokenRefreshed || event == SignedOut) ==> r == s
    ensures r.loading == s.loading
    ensures Consistent(s) ==> Consistent(r)
  {
    match event
    case SignedIn => s.(isLoggedIn := true, isAdmin := session.Some? && IsAdmin(session.value))
    case TokenRefreshed => s.(isLoggedIn := true, isAdmin := session.Some? && IsAdmin(session.value))
    case SignedOut => s.(isLoggedIn := false, isAdmin := false)
    case _ => s
  }

  /** `checkAuth` before its lookup: `setLoading(true)`. */
  function BeginCheck(s: NavState): (r: NavState)
    ensures r.loading && r.isLoggedIn == s.isLoggedIn && r.isAdmin == s.isAdmin
  {
    s.(loading := true)
  }

  /**
   * `checkAuth` after its lookup: a user sets logged-in and, with the administrator role, admin,
   * but never clears admin; no user clears both; a rejected lookup changes neither.
   * `loading` ends false in every case.
   */
  function FinishCheck(s: NavState, lookup: UserLookup): (r: NavState)
    ensures !r.loading
    ensures lookup.Authenticated? ==> r.isLoggedIn && (r.isAdmin <==> s.isAdmin || IsAdmin(lookup.user))
    ensures (lookup.Anonymous? || lookup.LookupError?) ==> !r.isLoggedIn && !r.isAdmin
    ensures lookup.LookupThrew? ==> r.isLoggedIn == s.isLoggedIn && r.isAdmin == s.isAdmin
    ensures Consistent(s) ==> Consistent(r)
  {
    match lookup
    case Authenticated(u) => NavState(true, s.isAdmin || IsAdmin(u), false)
    case LookupThrew => s.(loading := false)
    case _ => NavState(false, false, false)
  }

  /** One thing that can happen to the component. */
  datatype Step =
    | AuthChange(event: AuthEvent, session: Option<Identity>)
    | CheckAuthBegin
    | CheckAuthEnd(lookup: UserLookup)

  function Next(s: NavState, step: Step): (r: NavState)
    ensures Consistent(s) ==> Consistent(r)
  {
    match step
    case AuthChange(event, session) => OnAuthEvent(s, event, session)
    case CheckAuthBegin => BeginCheck(s)
    case CheckAuthEnd(lookup) => FinishCheck(s, lookup)
  }

  /** The state after the steps, in order, including any interleaving of a lookup with events. */
  function Run(s: NavState, steps: seq<Step>): NavState
    decreases |steps|
  {
    if steps == [] then s else Run(Next(s, steps[0]), steps[1..])
  }

  /** Whatever happens, starting from the initial state, admin implies logged in. */
  lemma {:induction false} RunKeepsConsistent(s: NavState, steps: seq<Step>)
    requires Consistent(s)
    ensures Consistent(Run(s, steps))
    decreases |steps|
  {
    if steps != [] {
      RunKeepsConsistent(Next(s, steps[0]), steps[1..]);
    }
  }

  /** `{isAdmin && (...)}`: the administration dropdown. */
  predicate ShowsAdminMenu(s: NavState) {
    s.isAdmin
  }

  /** `{!loading && (isLoggedIn ? ... : ...)}`: the login and register links. */
  predicate ShowsLoginLinks(s: NavState) {
    !s.loading && !s.isLoggedIn
  }

  /** The logout link. */
  predicate ShowsLogout(s: NavState) {
    !s.loading && s.isLoggedIn
  }

  /** Whatever happens, the administration menu is never shown next to the login links; once loaded, it comes with the logout link. */
  lemma NeverAdminMenuWithLoginLinks(steps: seq<Step>)
    ensures !(ShowsAdminMenu(Run(Initial, steps)) && ShowsLoginLinks(Run(Initial, steps)))
    ensures ShowsAdminMenu(Run(Initial, steps)) && !Run(Initial, steps).loading ==> ShowsLogout(Run(Initial, steps))
  {
    RunKeepsConsistent(Initial, steps);
  }

  /** A lookup that started before a sign-out and finishes after it logs the user back in. */
  lemma StaleCheckUndoesSignOut(u: Identity)
    ensures Run(Initial, [CheckAuthBegin, AuthChange(SignedOut, None), CheckAuthEnd(Authenticated(u))]).isLoggedIn
    ensures !Run(Initial, [CheckAuthBegin, AuthChange(SignedOut, None)]).isLoggedIn
  {
    var end := [CheckAuthEnd(Authenticated(u))];
    var signOut := AuthChange(SignedOut, None);
    var begun := BeginCheck(Initial);
    var signedOut := OnAuthEvent(begun, SignedOut, None);
    assert Run(signedOut, end) == Run(FinishCheck(signedOut, Authenticated(u)), []);
    assert ([signOut] + end)[1..] == end;
    assert Run(begun, [signOut] + end) == Run(signedOut, end);
    assert [CheckAuthBegin, signOut, end[0]][1..] == [signOut] + end;
    assert [signOut][1..] == [];
    assert Run(begun, [signOut]) == Run(signedOut, []);
    assert [CheckAuthBegin, signOut][1..] == [signOut];
  }

  /** After a demotion, `checkAuth` keeps showing the menu, while a sign-in event hides it. */
  lemma CheckKeepsStaleAdmin(s: NavState, u: Identity)
    requires s.isLoggedIn && s.isAdmin && !IsAdmin(u)
    ensures FinishCheck(s, Authenticated(u)).isAdmin
    ensures !OnAuthEvent(s, SignedIn, Some(u)).isAdmin
  {
  }

  /** The component; its methods make the same transitions as the functions above. */
  class NavigationBar {
    var isLoggedIn: bool
    var isAdmin: bool
    var loading: bool

    function State(): NavState
      reads this
    {
      NavState(isLoggedIn, isAdmin, loading)
    }

    predicate Valid()
      reads this
    {
      Consistent(State())
    }

    constructor()
      ensures State() == Initial && Valid()
    {
      isAdmin := false;
      isLoggedIn := false;
      loading := true;
    }

    /** The callback registered with `onAuthStateChange`. */
    method OnAuthStateChange(event: AuthEvent, session: Option<Identity>)
      requires Valid()
      modifies this
      ensures Valid()
      ensures State() == OnAuthEvent(old(State()), event, session)
    {
      if event == SignedIn || event == TokenRefreshed {
        isLoggedIn := true;
        if session.Some? && IsAdmin(session.value) {
          isAdmin := true;
        } else {
          isAdmin := false;
        }
      } else if event == SignedOut {
        isLoggedIn := false;
        isAdmin := false;
      }
    }

    /** `checkAuth` up to its lookup. */
    method BeginCheckAuth()
      requires Valid()
      modifies this`loading
      ensures Valid()
      ensures State() == BeginCheck(old(State()))
    {
      loading := true;
    }

    /** `checkAuth` from its lookup's result to its `finally`. */
    method FinishCheckAuth(lookup: UserLookup)
      requires Valid()
      modifies this
      ensures Valid()
      ensures State() == FinishCheck(old(State()), lookup)
    {
      if lookup.LookupThrew? {
        // the error is only logged
      } else if lookup.Authenticated? {
        isLoggedIn := true;
        if IsAdmin(lookup.user) {
          isAdmin := true;
        }
      } else {
        isLoggedIn := false;
        isAdmin := false;
      }
      loading := false;
    }
  }
}
