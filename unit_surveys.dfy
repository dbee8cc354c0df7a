/**
 * The unit survey list reached as `/surveys/<unit>` (`loadSurveys`): the same access rule as the
 * unit survey page, written as one guard, with a failed permission lookup read as "no grant".
 */
module UnitSurveys {
  import opened Wrappers
  import opened Seqs
  import opened Auth
  import opened Tables
  import SurveysPage

  /** `!permission && role !== 'admin'` after the `.single()` lookup, whose error is ignored. */
  function CheckAccess(auth: UserLookup, grants: seq<UnitPermission>, unitId: string, lookupFault: Option<string>): (r: Access)
    ensures auth.LookupThrew? ==> r == Failed
    ensures auth.LookupError? || auth.Anonymous? ==> r == Unauthenticated
    ensures auth.Authenticated? ==> r == Allowed || r == Denied
    ensures auth.Authenticated? && IsAdmin(auth.user) ==> r == Allowed
    ensures auth.Authenticated? && r == Allowed ==> MayViewUnit(auth.user, grants, unitId)
    ensures auth.Authenticated? && lookupFault.Some? ==> (r == Allowed <==> IsAdmin(auth.user))
    ensures auth.Authenticated? && lookupFault.None? && PairsUnique(grants) ==>
      r == (if MayViewUnit(auth.user, grants, unitId) then Allowed else Denied)
    ensures auth.Authenticated? && !IsAdmin(auth.user) ==>
      r == (if lookupFault.None? && |GrantsFor(grants, auth.user.id, unitId)| == 1 then Allowed else Denied)
  {
    match auth
    case LookupThrew => Failed
    case LookupError => Unauthenticated
    case Anonymous => Unauthenticated
    case Authenticated(user) =>
      var rows := GrantsFor(grants, user.id, unitId);
      var permission := SingleRow(rows, lookupFault);
      if PairsUnique(grants) then
        UniquePairSelectsOneRow(grants, user.id, unitId);
        if !permission.Row? && !IsAdmin(user) then Denied else Allowed
      else
        assert |rows| == 1 ==> rows[0] in rows;
        if !permission.Row? && !IsAdmin(user) then Denied else Allowed
  }

  /** Why the list shows an error alert. */
  datatype ListError = NoUnitAccess | QueryFailed | Unexpected

  datatype ListView = Loading | LoginRedirect | ErrorShown(reason: ListError) | ListShown(surveys: seq<Survey>)

  /** `loadSurveys` for `unitId`; `surveyQueryFails` says whether the survey query returns an error. */
  function LoadSurveys(auth: UserLookup, grants: seq<UnitPermission>, surveys: seq<Survey>, unitId: string,
                       lookupFault: Option<string>, surveyQueryFails: bool): (r: ListView)
    ensures unitId == "" ==> r == Loading
    ensures unitId != "" ==> (r == LoginRedirect <==> auth.LookupError? || auth.Anonymous?)
    ensures r == ErrorShown(NoUnitAccess) <==> unitId != "" && CheckAccess(auth, grants, unitId, lookupFault) == Denied
    ensures r.ListShown? ==> CheckAccess(auth, grants, unitId, lookupFault) == Allowed
    ensures r.ListShown? ==> NewestFirst(r.surveys) && forall s :: s in r.surveys <==> s in surveys && s.unitId == unitId
    ensures r.ListShown? ==> r.surveys == SurveysOfUnit(surveys, unitId)
    ensures unitId != "" && CheckAccess(auth, grants, unitId, lookupFault) == Allowed && !surveyQueryFails ==> r.ListShown?
    ensures unitId != "" && CheckAccess(auth, grants, unitId, lookupFault) == Allowed && surveyQueryFails ==>
            r == ErrorShown(QueryFailed)
    ensures unitId != "" && auth.LookupThrew? ==> r == ErrorShown(Unexpected)
  {
    if unitId == "" then Loading
    else match CheckAccess(auth, grants, unitId, lookupFault)
      case Failed => ErrorShown(Unexpected)
      case Unauthenticated => LoginRedirect
      case Denied => ErrorShown(NoUnitAccess)
      case Allowed => if surveyQueryFails then ErrorShown(QueryFailed) else ListShown(SurveysOfUnit(surveys, unitId))
  }

  /** With unique grants and a lookup that does not fail, both pages decide by the same rule. */
  lemma PagesAgreeOnRule(user: Identity, grants: seq<UnitPermission>, unitId: string)
    requires PairsUnique(grants)
    ensures CheckAccess(Authenticated(user), grants, unitId, None) == SurveysPage.CheckPermission(Authenticated(user), grants, unitId, None)
    ensures CheckAccess(Authenticated(user), grants, unitId, None) == Allowed <==> MayViewUnit(user, grants, unitId)
  {
  }

  /** A failing lookup (other than "no rows") denies here but is an error on the unit survey page. */
  lemma PagesDifferOnFailedLookup(user: Identity, grants: seq<UnitPermission>, unitId: string, code: string)
    requires !IsAdmin(user) && code != NoRowsCode
    ensures CheckAccess(Authenticated(user), grants, unitId, Some(code)) == Denied
    ensures SurveysPage.CheckPermission(Authenticated(user), grants, unitId, Some(code)) == Failed
  {
  }

  /** A member whose grant is stored more than once is denied by both pages: `.single()` needs exactly one row. */
  lemma DuplicatedGrantDenies(user: Identity, grants: seq<UnitPermission>, unitId: string)
    requires !IsAdmin(user) && |GrantsFor(grants, user.id, unitId)| >= 2
    ensures MayViewUnit(user, grants, unitId)
    ensures CheckAccess(Authenticated(user), grants, unitId, None) == Denied
    ensures SurveysPage.CheckPermission(Authenticated(user), grants, unitId, None) == Denied
  {
    assert GrantsFor(grants, user.id, unitId)[0] in GrantsFor(grants, user.id, unitId);
  }

}
