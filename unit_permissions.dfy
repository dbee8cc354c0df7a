/**
 * The unit-permission administration page: the `unit_permissions` table with the add and
 * remove handlers that change it, and the labels each grant is shown with.
 */
module UnitPermissions {
  import opened Wrappers
  import opened Seqs
  import opened Tables

  /** `permissions.find(p => p.user_id === userId && p.unit_id === unitId)`. */
  function FindPermission(perms: seq<UnitPermission>, userId: string, unitId: string): (r: Option<UnitPermission>)
    ensures r.Some? <==> HasPair(perms, userId, unitId)
    ensures r.Some? ==> r.value in perms && r.value.userId == userId && r.value.unitId == unitId
  {
    Find((p: UnitPermission) => p.userId == userId && p.unitId == unitId, perms)
  }

  /** The table after `.delete().eq('id', permissionId)`. */
  function WithoutId(perms: seq<UnitPermission>, permissionId: nat): (r: seq<UnitPermission>)
    ensures forall p :: p in r <==> p in perms && p.id != permissionId
    ensures IsSubsequence(r, perms)
    ensures PairsUnique(perms) ==> PairsUnique(r)
  {
    var r := Filter((p: UnitPermission) => p.id != permissionId, perms);
    FilterKeepsOrder((p: UnitPermission) => p.id != permissionId, perms);
    if PairsUnique(perms) then SubsequenceKeepsPairsUnique(r, perms); r else r
  }

  /** The delete keeps every other row as many times as it was stored. */
  lemma WithoutIdCounts(perms: seq<UnitPermission>, permissionId: nat)
    ensures forall p :: multiset(WithoutId(perms, permissionId))[p] == if p.id != permissionId then multiset(perms)[p] else 0
  {
    FilterCounts((p: UnitPermission) => p.id != permissionId, perms);
  }

  /** An id above every id in the table, standing for the table's generated key. */
  function NextFreeId(perms: seq<UnitPermission>): (n: nat)
    ensures forall p :: p in perms ==> p.id < n
  {
    if perms == [] then 0
    else
      var rest := NextFreeId(perms[1..]);
      assert forall p :: p in perms ==> p == perms[0] || p in perms[1..];
      if perms[0].id < rest then rest else perms[0].id + 1
  }

  const UnknownUser := "Bilinmeyen Kullanıcı"
  const UnknownUnit := "Bilinmeyen Birim"

  /** The user cell of a grant: the email of the first loaded user with that id, else the fallback. */
  function UserLabel(users: seq<User>, userId: string): (r: string)
    ensures (forall k :: 0 <= k < |users| ==> users[k].id != userId) ==> r == UnknownUser
    ensures (exists k :: 0 <= k < |users| && users[k].id == userId) ==>
      exists k :: 0 <= k < |users| && users[k].id == userId && r == users[k].email &&
        forall j :: 0 <= j < k ==> users[j].id != userId
  {
    match Find((u: User) => u.id == userId, users)
    case Some(u) => u.email
    case None => UnknownUser
  }

  /** The unit cell of a grant: `name - description` of the first loaded unit with that id, else the fallback. */
  function UnitLabel(units: seq<Unit>, unitId: string): (r: string)
    ensures (forall k :: 0 <= k < |units| ==> units[k].id != unitId) ==> r == UnknownUnit
    ensures (exists k :: 0 <= k < |units| && units[k].id == unitId) ==>
      exists k :: 0 <= k < |units| && units[k].id == unitId && r == units[k].name + " - " + units[k].description &&
        forall j :: 0 <= j < k ==> units[j].id != unitId
  {
    match Find((u: Unit) => u.id == unitId, units)
    case Some(u) => u.name + " - " + u.description
    case None => UnknownUnit
  }

  /** The alert texts the page sets. */
  datatype Notice = SelectUserAndUnit | AlreadyGranted | AddFailed | Added | RemoveFailed | Removed

  /** How `handleAddPermission` ended. */
  datatype AddOutcome = SelectionMissing | Duplicate | InsertRejected | Granted(permission: UnitPermission)

  class UnitPermissionsPage {
    var users: seq<User>
    var units: seq<Unit>
    /** The `unit_permissions` table; handled one request at a time, so the loaded copy equals it. */
    var permissions: seq<UnitPermission>
    var selectedUser: string
    var selectedUnit: string
    /** Key the table will give the next inserted row. */
    var nextId: nat
    var error: Option<Notice>
    var success: Option<Notice>
    var loading: bool

    predicate Valid()
      reads this
    {
      forall p :: p in permissions ==> p.id < nextId
    }

    /** The page after `loadData` succeeded: nothing selected, no alert. */
    constructor (users: seq<User>, units: seq<Unit>, permissions: seq<UnitPermission>)
      ensures Valid()
      ensures this.users == users && this.units == units && this.permissions == permissions
      ensures selectedUser == "" && selectedUnit == "" && error == None && success == None && !loading
    {
      this.users := users;
      this.units := units;
      this.permissions := permissions;
      this.nextId := NextFreeId(permissions);
      selectedUser, selectedUnit := "", "";
      error, success := None, None;
      loading := false;
    }

    /** The user drop-down's `onChange`. */
    method SelectUser(userId: string)
      modifies this`selectedUser
      ensures selectedUser == userId
    {
      selectedUser := userId;
    }

    /** The unit drop-down's `onChange`. */
    method SelectUnit(unitId: string)
      modifies this`selectedUnit
      ensures selectedUnit == unitId
    {
      selectedUnit := unitId;
    }

    /** `handleAddPermission`; `insertOk` says whether the insert request succeeds, `now` is its timestamp. */
    method AddPermission(insertOk: bool, now: int) returns (outcome: AddOutcome)
      requires Valid()
      modifies this
      ensures Valid()
      ensures users == old(users) && units == old(units)
      ensures old(selectedUser) == "" || old(selectedUnit) == "" ==>
        && outcome == SelectionMissing && permissions == old(permissions)
        && error == Some(SelectUserAndUnit) && success == old(success) && loading == old(loading)
        && selectedUser == old(selectedUser) && selectedUnit == old(selectedUnit) && nextId == old(nextId)
      ensures old(selectedUser) != "" && old(selectedUnit) != "" && HasPair(old(permissions), old(selectedUser), old(selectedUnit)) ==>
        && outcome == Duplicate && permissions == old(permissions)
        && error == Some(AlreadyGranted) && success == None && !loading
        && selectedUser == old(selectedUser) && selectedUnit == old(selectedUnit) && nextId == old(nextId)
      ensures old(selectedUser) != "" && old(selectedUnit) != "" && !HasPair(old(permissions), old(selectedUser), old(selectedUnit)) && !insertOk ==>
        && outcome == InsertRejected && permissions == old(permissions)
        && error == Some(AddFailed) && success == None && !loading
        && selectedUser == old(selectedUser) && selectedUnit == old(selectedUnit) && nextId == old(nextId)
      ensures old(selectedUser) != "" && old(selectedUnit) != "" && !HasPair(old(permissions), old(selectedUser), old(selectedUnit)) && insertOk ==>
        && outcome == Granted(UnitPermission(old(nextId), old(selectedUser), old(selectedUnit), now))
        && permissions == old(permissions) + [outcome.permission]
        && (forall p :: p in old(permissions) ==> p.id != outcome.permission.id)
        && success == Some(Added) && error == None && !loading
        && selectedUser == "" && selectedUnit == "" && nextId == old(nextId) + 1
      ensures PairsUnique(old(permissions)) ==> PairsUnique(permissions)
    {
      if selectedUser == "" || selectedUnit == "" {
        error := Some(SelectUserAndUnit);
        return SelectionMissing;
      }
      loading := true;
      error, success := None, None;
      var existing := FindPermission(permissions, selectedUser, selectedUnit);
      if existing.Some? {
        error := Some(AlreadyGranted);
        loading := false;
        return Duplicate;
      }
      if !insertOk {
        error := Some(AddFailed);
        loading := false;
        return InsertRejected;
      }
      var row := InsertSelected(now);
      outcome := Granted(row);
    }

    /** The success path of `handleAddPermission`: insert the selected pair, then clear the selection. */
    method InsertSelected(now: int) returns (row: UnitPermission)
      requires Valid() && !HasPair(permissions, selectedUser, selectedUnit)
      modifies this
      ensures Valid()
      ensures users == old(users) && units == old(units)
      ensures row == UnitPermission(old(nextId), old(selectedUser), old(selectedUnit), now)
      ensures permissions == old(permissions) + [row]
      ensures success == Some(Added) && error == None && !loading
      ensures selectedUser == "" && selectedUnit == "" && nextId == old(nextId) + 1
      ensures PairsUnique(old(permissions)) ==> PairsUnique(permissions)
    {
      row := UnitPermission(nextId, selectedUser, selectedUnit, now);
      if PairsUnique(permissions) { AppendKeepsPairsUnique(permissions, row); }
      permissions := permissions + [row];
      nextId := nextId + 1;
      error, success := None, Some(Added);
      selectedUser, selectedUnit := "", "";
      loading := false;
    }

    /** `handleRemovePermission(permissionId)`; `deleteOk` says whether the delete request succeeds. */
    method RemovePermission(permissionId: nat, deleteOk: bool)
      requires Valid()
      modifies this
      ensures Valid()
      ensures users == old(users) && units == old(units) && nextId == old(nextId)
      ensures selectedUser == old(selectedUser) && selectedUnit == old(selectedUnit) && !loading
      ensures deleteOk ==> permissions == WithoutId(old(permissions), permissionId) && success == Some(Removed) && error == None
      ensures !deleteOk ==> permissions == old(permissions) && error == Some(RemoveFailed) && success == None
      ensures PairsUnique(old(permissions)) ==> PairsUnique(permissions)
    {
      loading := true;
      error, success := None, None;
      if deleteOk {
        permissions := WithoutId(permissions, permissionId);
        success := Some(Removed);
      } else {
        error := Some(RemoveFailed);
      }
      loading := false;
    }
  }

  /** Granting the same (user, unit) pair twice stores one grant and reports the second as a duplicate. */
  method GrantTwiceStoresOnce(user: string, unit: string, now: int) returns (first: AddOutcome, second: AddOutcome, stored: seq<UnitPermission>)
    requires user != "" && unit != ""
    ensures first.Granted? && first.permission.userId == user && first.permission.unitId == unit
    ensures second == Duplicate
    ensures stored == [first.permission]
  {
    var page := new UnitPermissionsPage([], [], []);
    page.SelectUser(user);
    page.SelectUnit(unit);
    first := page.AddPermission(true, now);
    page.SelectUser(user);
    page.SelectUnit(unit);
    assert HasPair(page.permissions, user, unit) by {
      assert page.permissions[0] == first.permission;
    }
    second := page.AddPermission(true, now);
    stored := page.permissions;
  }
}
