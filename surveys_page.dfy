/**
 * The unit survey page reached as `/surveys?unit=<id>`: `checkPermission` decides access,
 * then `loadData` loads the unit and its surveys.
 */
module SurveysPage {
  import opened Wrappers
  import opened Seqs
  import opened Auth
  import opened Tables

  /**
   * `checkPermission`: a failed user lookup is an error, no user means login, an administrator
   * is let in without a lookup, anyone else needs exactly one grant row; "no rows" denies.
   */
  function CheckPermission(auth: UserLookup, grants: seq<UnitPermission>, unitId: string, lookupFault: Option<string>): (r: Access)
    ensures r == Unauthenticated <==> auth.Anonymous?
    ensures auth.LookupThrew? || auth.LookupError? ==> r == Failed
    ensures auth.Authenticated? && IsAdmin(auth.user) ==> r == Allowed
    ensures auth.Authenticated? && r == Allowed ==> MayViewUnit(auth.user, grants, unitId)
    ensures auth.Authenticated? && !IsAdmin(auth.user) && lookupFault.Some? ==>
      r == (if lookupFault.value == NoRowsCode then Denied else Failed)
    ensures auth.Authenticated? && lookupFault.None? && PairsUnique(grants) ==>
      r == (if MayViewUnit(auth.user, grants, unitId) then Allowed else Denied)
    ensures auth.Authenticated? && !IsAdmin(auth.user) && lookupFault.None? ==>
      r == (if |GrantsFor(grants, auth.user.id, unitId)| == 1 then Allowed else Denied)
  {
    match auth
    case LookupThrew => Failed
    case LookupError => Failed
    case Anonymous => Unauthenticated
    case Authenticated(user) =>
      if IsAdmin(user) then Allowed
      else
        var rows := GrantsFor(grants, user.id, unitId);
        if PairsUnique(grants) then UniquePairSelectsOneRow(grants, user.id, unitId); LookupDecision(rows, lookupFault)
        else assert |rows| == 1 ==> rows[0] in rows; LookupDecision(rows, lookupFault)
  }

  /** The branch on the `.single()` result: a row allows, `PGRST116` denies, any other error fails. */
  function LookupDecision(rows: seq<UnitPermission>, lookupFault: Option<string>): Access {
    match SingleRow(rows, lookupFault)
    case Row(_) => Allowed
    case QueryError(code) => if code == NoRowsCode then Denied else Failed
  }

  /** What the page renders once its handlers have run. */
  datatype SurveysView =
    | Loading                  // no `unit` query parameter: the effect never runs
    | LoginRedirect            // `router.push('/login')`
    | ErrorShown               // the red alert
    | NoAccessShown            // 'Bu birime erişim izniniz bulunmamaktadır'
    | ListShown(unit: Unit, surveys: seq<Survey>)

  /** Failures of the three requests, each an input. */
  datatype Faults = Faults(permissionLookup: Option<string>, unitLookup: Option<string>, surveyQuery: bool)

  /** `loadData`: the unit with `.eq('id', unitId).single()`, then its surveys newest first. */
  function LoadData(units: seq<Unit>, surveys: seq<Survey>, unitId: string, faults: Faults): (r: SurveysView)
    ensures r == ErrorShown || r.ListShown?
    ensures r.ListShown? ==> r.unit in units && r.unit.id == unitId
    ensures r.ListShown? ==> NewestFirst(r.surveys) && forall s :: s in r.surveys <==> s in surveys && s.unitId == unitId
    ensures r.ListShown? ==> r.surveys == SurveysOfUnit(surveys, unitId)
    ensures r.ListShown? <==>
            faults.unitLookup.None? && !faults.surveyQuery && |Filter((u: Unit) => u.id == unitId, units)| == 1
  {
    var found := Filter((u: Unit) => u.id == unitId, units);
    assert |found| == 1 ==> found[0] in found;
    match SingleRow(Filter((u: Unit) => u.id == unitId, units), faults.unitLookup)
    case QueryError(_) => ErrorShown
    case Row(unit) => if faults.surveyQuery then ErrorShown else ListShown(unit, SurveysOfUnit(surveys, unitId))
  }

  /** The page for `unitId`: the effect, `checkPermission` and, on access, `loadData`. */
  function Open(auth: UserLookup, grants: seq<UnitPermission>, units: seq<Unit>, surveys: seq<Survey>,
                unitId: string, faults: Faults): (r: SurveysView)
    ensures unitId == "" ==> r == Loading
    ensures unitId != "" ==> (r == LoginRedirect <==> auth.Anonymous?)
    ensures r == NoAccessShown <==> unitId != "" && CheckPermission(auth, grants, unitId, faults.permissionLookup) == Denied
    ensures r.ListShown? ==> CheckPermission(auth, grants, unitId, faults.permissionLookup) == Allowed
    ensures r.ListShown? ==> r.unit in units && r.unit.id == unitId
    ensures r.ListShown? ==> NewestFirst(r.surveys) && forall s :: s in r.surveys <==> s in surveys && s.unitId == unitId
    ensures (unitId != "" && CheckPermission(auth, grants, unitId, faults.permissionLookup) == Allowed &&
             faults.unitLookup.None? && !faults.surveyQuery && |Filter((u: Unit) => u.id == unitId, units)| == 1)
            ==> r.ListShown?
    ensures unitId != "" && CheckPermission(auth, grants, unitId, faults.permissionLookup) == Failed ==> r == ErrorShown
    ensures unitId != "" && CheckPermission(auth, grants, unitId, faults.permissionLookup) == Allowed ==>
            r == LoadData(units, surveys, unitId, faults)
  {
    if unitId == "" then Loading
    else match CheckPermission(auth, grants, unitId, faults.permissionLookup)
      case Unauthenticated => LoginRedirect
      case Failed => ErrorShown
      case Denied => NoAccessShown
      case Allowed => LoadData(units, surveys, unitId, faults)
  }
}
