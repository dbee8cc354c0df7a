/**
 * The database tables the pages read and write, held in memory as sequences of rows,
 * and the query operators the pages apply to them.
 */
module Tables {
  import opened Wrappers
  import opened Seqs
  import opened Auth

  /** A row of `unit_permissions`: this user may act within this unit. */
  datatype UnitPermission = UnitPermission(id: nat, userId: string, unitId: string, createdAt: int)

  /** A row of `units`. */
  datatype Unit = Unit(id: string, name: string, description: string)

  /** A row of the user list the administration pages show. */
  datatype User = User(id: string, email: string, role: string)

  /** A row of `surveys`; `createdAt` is the insertion timestamp. */
  datatype Survey = Survey(id: string, title: string, description: string, unitId: string, createdAt: int, createdBy: string)

  /** A row of `survey_responses`. */
  datatype Response = Response(id: string, surveyId: string, userId: string)

  /** PostgREST's error code when `.single()` does not get exactly one row. */
  const NoRowsCode := "PGRST116"

  /** What `.single()` resolves to: the one row, or an error with its code. */
  datatype Single<T> = Row(row: T) | QueryError(code: string)

  /** `.single()` over the rows a query selected; `fault` is a failure of the request itself. */
  function SingleRow<T>(rows: seq<T>, fault: Option<string>): (r: Single<T>)
    ensures r.Row? <==> fault.None? && |rows| == 1
    ensures r.Row? ==> r.row == rows[0]
    ensures fault.Some? ==> r == QueryError(fault.value)
    ensures fault.None? && |rows| != 1 ==> r == QueryError(NoRowsCode)
  {
    if fault.Some? then QueryError(fault.value)
    else if |rows| == 1 then Row(rows[0])
    else QueryError(NoRowsCode)
  }

  /** The rows selected by `.eq('user_id', userId).eq('unit_id', unitId)`. */
  function GrantsFor(perms: seq<UnitPermission>, userId: string, unitId: string): seq<UnitPermission> {
    Filter((p: UnitPermission) => p.userId == userId && p.unitId == unitId, perms)
  }

  predicate HasPair(perms: seq<UnitPermission>, userId: string, unitId: string) {
    exists p :: p in perms && p.userId == userId && p.unitId == unitId
  }

  /** The unit access rule both survey-list pages apply: an administrator, or a user holding a grant. */
  predicate MayViewUnit(u: Identity, perms: seq<UnitPermission>, unitId: string) {
    IsAdmin(u) || HasPair(perms, u.id, unitId)
  }

  /** No two grants share a (user, unit) pair. */
  predicate PairsUnique(perms: seq<UnitPermission>) {
    perms == [] || (!HasPair(perms[1..], perms[0].userId, perms[0].unitId) && PairsUnique(perms[1..]))
  }

  /** The recursive definition says what one expects of two positions of the table. */
  lemma {:induction false} PairsUniqueAt(perms: seq<UnitPermission>, i: nat, j: nat)
    requires PairsUnique(perms) && i < j < |perms|
    ensures perms[i].userId != perms[j].userId || perms[i].unitId != perms[j].unitId
  {
    if i == 0 {
      assert perms[j] == perms[1..][j - 1];
    } else {
      PairsUniqueAt(perms[1..], i - 1, j - 1);
    }
  }

  /** Under unique pairs the `.eq().eq()` query selects one row when a grant exists and none otherwise. */
  lemma {:induction false} UniquePairSelectsOneRow(perms: seq<UnitPermission>, userId: string, unitId: string)
    requires PairsUnique(perms)
    ensures |GrantsFor(perms, userId, unitId)| == if HasPair(perms, userId, unitId) then 1 else 0
  {
    if perms != [] {
      UniquePairSelectsOneRow(perms[1..], userId, unitId);
      assert perms == [perms[0]] + perms[1..];
      if perms[0].userId == userId && perms[0].unitId == unitId {
        assert GrantsFor(perms, userId, unitId) == [perms[0]] + GrantsFor(perms[1..], userId, unitId);
      } else {
        assert GrantsFor(perms, userId, unitId) == GrantsFor(perms[1..], userId, unitId);
        assert HasPair(perms, userId, unitId) ==> HasPair(perms[1..], userId, unitId);
      }
    }
  }

  /** Appending a grant for a pair not yet present keeps pairs unique. */
  lemma {:induction false} AppendKeepsPairsUnique(perms: seq<UnitPermission>, p: UnitPermission)
    requires PairsUnique(perms) && !HasPair(perms, p.userId, p.unitId)
    ensures PairsUnique(perms + [p])
  {
    if perms != [] {
      AppendKeepsPairsUnique(perms[1..], p);
      assert (perms + [p])[1..] == perms[1..] + [p];
    }
  }

  /** Deleting grants keeps pairs unique. */
  lemma {:induction false} SubsequenceKeepsPairsUnique(r: seq<UnitPermission>, s: seq<UnitPermission>)
    requires IsSubsequence(r, s) && PairsUnique(s)
    ensures PairsUnique(r)
    decreases |s|
  {
    if r != [] {
      if r[0] == s[0] && IsSubsequence(r[1..], s[1..]) {
        SubsequenceKeepsPairsUnique(r[1..], s[1..]);
        SubsequenceMembers(r[1..], s[1..]);
      } else {
        SubsequenceKeepsPairsUnique(r, s[1..]);
      }
    }
  }

  /** Rows ordered by `.order('created_at', { ascending: false })`. */
  predicate NewestFirst(s: seq<Survey>) {
    forall i, j :: 0 <= i < j < |s| ==> s[i].createdAt >= s[j].createdAt
  }

  /** A row no older than every row of a newest-first list may head it. */
  lemma NewestFirstCons(h: Survey, t: seq<Survey>)
    requires NewestFirst(t)
    requires forall y :: y in t ==> h.createdAt >= y.createdAt
    ensures NewestFirst([h] + t)
  {
    var r := [h] + t;
    forall i, j | 0 <= i < j < |r| ensures r[i].createdAt >= r[j].createdAt {
      assert r[j] == t[j - 1];
      if i > 0 { assert r[i] == t[i - 1]; }
    }
  }

  /** The tail of a newest-first list is newest first, and its head is no older than any of it. */
  lemma NewestFirstTail(s: seq<Survey>)
    requires NewestFirst(s) && s != []
    ensures NewestFirst(s[1..])
    ensures forall y :: y in s ==> s[0].createdAt >= y.createdAt
  {
    forall y | y in s ensures s[0].createdAt >= y.createdAt {
      var j :| 0 <= j < |s| && s[j] == y;
    }
  }

  /** Inserts a row into a newest-first list, before the first row that is not newer. */
  function InsertNewestFirst(x: Survey, s: seq<Survey>): (r: seq<Survey>)
    requires NewestFirst(s)
    ensures NewestFirst(r)
    ensures multiset(r) == multiset(s) + multiset{x}
    ensures forall y :: y in r ==> y == x || y in s
  {
    if s == [] then
      NewestFirstCons(x, s);
      [x]
    else
      assert s == [s[0]] + s[1..];
      NewestFirstTail(s);
      if x.createdAt >= s[0].createdAt then
        NewestFirstCons(x, s);
        [x] + s
      else
        var rest := InsertNewestFirst(x, s[1..]);
        NewestFirstCons(s[0], rest);
        assert multiset([s[0]] + rest) == multiset{s[0]} + multiset(rest);
        [s[0]] + rest
  }

  /** Orders rows newest first, keeping exactly the same rows. */
  function SortNewestFirst(s: seq<Survey>): (r: seq<Survey>)
    ensures NewestFirst(r)
    ensures multiset(r) == multiset(s)
  {
    if s == [] then []
    else
      assert s == [s[0]] + s[1..];
      InsertNewestFirst(s[0], SortNewestFirst(s[1..]))
  }

  /** `.from('surveys').select('*').eq('unit_id', unitId).order('created_at', { ascending: false })`. */
  function SurveysOfUnit(table: seq<Survey>, unitId: string): (r: seq<Survey>)
    ensures NewestFirst(r)
    ensures forall x :: multiset(r)[x] == if x.unitId == unitId then multiset(table)[x] else 0
    ensures forall x :: x in r <==> x in table && x.unitId == unitId
  {
    var kept := Filter((x: Survey) => x.unitId == unitId, table);
    FilterCounts((x: Survey) => x.unitId == unitId, table);
    var r := SortNewestFirst(kept);
    assert forall x :: x in r <==> x in multiset(kept);
    r
  }
}
