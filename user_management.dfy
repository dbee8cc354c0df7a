/**
 * The administrator's user management page: `loadUsers` admits only an administrator and lists
 * the signed-in user; the search box filters that list by email.
 */
module UserManagement {
  import opened Wrappers
  import opened Strings
  import opened Seqs
  import opened Auth
  import opened Tables

  /** Why `loadUsers` shows its error alert instead of a list. */
  datatype UsersError =
    | LookupFailed    // `getUser` rejected or returned an error
    | SessionMissing  // 'Kullanıcı oturumu bulunamadı'
    | NotAdmin        // 'Bu sayfaya erişim yetkiniz yok'

  /** The placeholder shown for a user without an email. */
  const NoEmail := "Kullanıcı"

  /** The role shown for a user without one. */
  const DefaultRole := "user"

  /** `a || b` on strings: the empty string is falsy. */
  function OrElse(s: Option<string>, fallback: string): (r: string)
    ensures r == fallback <==> s.None? || s.value == [] || s.value == fallback
    ensures r != fallback ==> s == Some(r)
  {
    if s.Some? && s.value != [] then s.value else fallback
  }

  /** `loadUsers`: the checks in order, then the one-row list built from the signed-in user. */
  function LoadUsers(auth: UserLookup): (r: Result<seq<User>, UsersError>)
    ensures auth.LookupThrew? || auth.LookupError? ==> r == Err(LookupFailed)
    ensures auth.Anonymous? ==> r == Err(SessionMissing)
    ensures auth.Authenticated? && !IsAdmin(auth.user) ==> r == Err(NotAdmin)
    ensures r.Ok? <==> auth.Authenticated? && IsAdmin(auth.user)
    ensures r.Ok? ==> |r.value| == 1 && r.value[0].id == auth.user.id
    ensures r.Ok? ==> r.value[0].email == (if auth.user.email.Some? && auth.user.email.value != [] then auth.user.email.value else NoEmail)
  {
    match auth
    case LookupThrew => Err(LookupFailed)
    case LookupError => Err(LookupFailed)
    case Anonymous => Err(SessionMissing)
    case Authenticated(u) =>
      if !IsAdmin(u) then Err(NotAdmin)
      else Ok([User(u.id, OrElse(u.email, NoEmail), OrElse(u.role, DefaultRole))])
  }

  /** The listed role is always "admin": the gate has already rejected every other role, so the default never applies. */
  lemma ListedRoleIsAdmin(auth: UserLookup)
    requires LoadUsers(auth).Ok?
    ensures LoadUsers(auth).value[0].role == "admin"
    ensures LoadUsers(auth).value[0].role != DefaultRole
  {
  }

  /** `filteredUsers`: the users whose lowercased email contains the lowercased term, in order. */
  function FilterUsers(users: seq<User>, searchTerm: string): (r: seq<User>)
    ensures forall u :: u in r <==> u in users && Contains(Lower(u.email), Lower(searchTerm))
    ensures forall u :: multiset(r)[u] == if Contains(Lower(u.email), Lower(searchTerm)) then multiset(users)[u] else 0
    ensures IsSubsequence(r, users)
    ensures searchTerm == [] ==> r == users
  {
    var needle := Lower(searchTerm);
    var p := (u: User) => Contains(Lower(u.email), needle);
    FilterKeepsOrder(p, users);
    FilterCounts(p, users);
    if searchTerm == [] then
      forall u | u in users ensures p(u) { EmptyNeedleFound(Lower(u.email)); }
      FilterAll(p, users);
      Filter(p, users)
    else Filter(p, users)
  }

  /** Typing more narrows the list: a term containing another finds no user the shorter one missed. */
  lemma {:induction false} LongerTermNarrows(users: seq<User>, shorter: string, longer: string)
    requires Contains(Lower(longer), Lower(shorter))
    ensures forall u :: u in FilterUsers(users, longer) ==> u in FilterUsers(users, shorter)
  {
    forall u | u in FilterUsers(users, longer) ensures u in FilterUsers(users, shorter) {
      ContainsTransitive(Lower(u.email), Lower(longer), Lower(shorter));
    }
  }
}
