# Survey management core, modelled in Dafny

This project models the survey application of an earthquake-drill organisation. The application is a
Next.js front end over a Supabase (PostgREST) database. The model covers the logic the pages run
between the user and the database:

- the create-survey form's question editor and its submit checks;
- the unit-permission administration page, whose add and remove handlers change the
  `unit_permissions` table;
- the two unit survey pages, which decide whether the signed-in user may see a unit's surveys
  and then list them newest first;
- the administrator's survey list, with its search box and its delete handler that removes a
  survey's responses before the survey;
- the user-management page's administrator gate and email filter;
- the navigation bar's login state, driven by auth events and by its own user lookup.

Tables are sequences of rows. Every request to the database or to the auth client becomes an
input that says how the request ends: rejected, failed with a code, or succeeded. The
`.single()` modifier follows PostgREST. Exactly one matching row yields that row. Zero rows, or
several, yield the error `PGRST116`.

Modules:

- `Wrappers`: `Option` and `Result`.
- `Strings`: ECMAScript `trim`, lowercasing and `includes`.
- `Seqs`: `filter`, `map` and `find`.
- `Auth`: the signed-in user and the outcome of `auth.getUser()`.
- `Tables`: the row types, `.single()`, grant-pair uniqueness and the newest-first survey
  query.
- One module per page: `SurveyEditor`, `UnitPermissions`, `SurveysPage`, `UnitSurveys`,
  `SurveyManagement`, `UserManagement` and `Navbar`.

Pages that change rows in place or hold mutable component state are classes whose methods
modify their fields:

- `UnitPermissions.UnitPermissionsPage`;
- `SurveyManagement.SurveyManagementPage`;
- `Navbar.NavigationBar`.

Pages whose handlers only compute a decision are functions.

Three behaviours of the code a reader might not expect:

- After a question is switched from a choice type back to `text`, it keeps its option list.
  Changing a question's type never drops the list itself.
- Submitting a survey checks only for a session. It does not check the administrator role.
- The administrator's search trims the term only to test whether it is blank. The match
  itself uses the untrimmed, lowercased term.

## Model

| member | source | states |
|---|---|---|
| `Strings.TrimEmptyIffBlank` | src/pages/admin/surveys/create.tsx:126 | `trim()` yields the empty string exactly when every character is ECMAScript white space |
| `Strings.Trim` | src/pages/admin/surveys/create.tsx:134-135 | the trimmed string is no longer than the input and neither starts nor ends with white space |
| `Strings.TrimIsInfix` | src/pages/admin/surveys/index.tsx:38 | the input is a blank prefix, then the trimmed string, then a blank suffix |
| `Strings.Lower` | src/pages/admin/surveys/index.tsx:41 | lowercasing keeps the length and lowercases each character |
| `Strings.ContainsTransitive` | src/pages/admin/users.tsx:117 | a substring of a substring is a substring |
| `Strings.EmptyNeedleFound` | src/pages/admin/users.tsx:117 | every string includes the empty string |
| `Seqs.Filter` | src/pages/admin/surveys/create.tsx:70 | `filter` keeps exactly the elements satisfying the predicate |
| `Seqs.FilterKeepsOrder` | src/pages/admin/surveys/create.tsx:70 | `filter` keeps the kept elements in their original order |
| `Seqs.FilterCounts` | src/pages/admin/surveys/index.tsx:42-46 | `filter` keeps each kept element as many times as it occurred |
| `Seqs.Find` | src/pages/admin/unit-permissions.tsx:105-107 | `find` yields nothing exactly when no element matches, otherwise the first match |
| `Tables.SingleRow` | src/pages/surveys.tsx:60-70 | `.single()` yields a row exactly when the request does not fail and exactly one row matches; a request failure keeps its code; zero or several rows give `PGRST116` |
| `Tables.UniquePairSelectsOneRow` | src/pages/surveys.tsx:60-65 | with no duplicated (user, unit) pair, the grant query returns one row when a grant exists and none otherwise |
| `Tables.PairsUniqueAt` | src/pages/admin/unit-permissions.tsx:104-117 | under unique pairs, any two positions of the table hold different (user, unit) pairs |
| `Tables.AppendKeepsPairsUnique` | src/pages/admin/unit-permissions.tsx:104-117 | inserting a pair not yet present keeps every (user, unit) pair unique |
| `Tables.SurveysOfUnit` | src/pages/surveys.tsx:101-105 | the unit's survey query returns exactly the unit's rows, each as often as stored, ordered by `created_at` descending |
| `SurveyEditor.AddQuestion` | src/pages/admin/surveys/create.tsx:59-67 | the list grows by one, earlier questions unchanged, the new last one empty, text type, optional and without options |
| `SurveyEditor.RemoveQuestion` | src/pages/admin/surveys/create.tsx:69-71 | removes exactly the questions with that id; every other question is kept as many times as it occurred, in order |
| `SurveyEditor.RemoveUndoesAdd` | src/pages/admin/surveys/create.tsx:59-71 | removing a just-added question with a fresh id restores the list |
| `SurveyEditor.ApplyEdit` | src/pages/admin/surveys/create.tsx:75-80 | each edit sets its own field and nothing else; a choice type keeps existing options or seeds `['']`; switching to text leaves options alone |
| `SurveyEditor.UpdateQuestion` | src/pages/admin/surveys/create.tsx:73-83 | same length; questions with another id unchanged; those with the id edited |
| `SurveyEditor.TypeRoundTripKeepsSeededOption` | src/pages/admin/surveys/create.tsx:76-79 | a text question switched to a choice type and back still carries `['']` |
| `SurveyEditor.AddOption` | src/pages/admin/surveys/create.tsx:85-92 | appends one empty option to the matching questions, creating the list if absent; others unchanged |
| `SurveyEditor.UpdateOption` | src/pages/admin/surveys/create.tsx:94-103 | replaces only the indexed option of matching questions, keeping the length; questions without options unchanged |
| `SurveyEditor.UpdateOptionLastWriteWins` | src/pages/admin/surveys/create.tsx:94-103 | two writes to one option equal the second write alone |
| `SurveyEditor.DeleteAt` | src/pages/admin/surveys/create.tsx:108 | an in-range index shortens the list by one keeping the order; an out-of-range one changes nothing |
| `SurveyEditor.RemoveOption` | src/pages/admin/surveys/create.tsx:105-113 | deletes the indexed option of matching questions; questions without options unchanged |
| `SurveyEditor.RemoveUndoesAddOption` | src/pages/admin/surveys/create.tsx:85-113 | deleting the option just added restores the question list |
| `SurveyEditor.Submit` | src/pages/admin/surveys/create.tsx:115-159 | first failed check wins: lookup, session, blank title, unit, questions, insert; an insert error keeps its message; only a full pass reports success, with the trimmed title and description and `created_by` the user id; an insert that stores that same row but returns no data is reported as an error that carries the stored row |
| `UnitPermissions.FindPermission` | src/pages/admin/unit-permissions.tsx:105-107 | the duplicate check finds a grant exactly when the loaded table holds the pair |
| `UnitPermissions.WithoutId` | src/pages/admin/unit-permissions.tsx:139-142 | the delete removes exactly the rows with that id, keeps the others in order and keeps pairs unique |
| `UnitPermissions.WithoutIdCounts` | src/pages/admin/unit-permissions.tsx:139-142 | the delete keeps every other row as many times as it was stored |
| `UnitPermissions.NextFreeId` | src/pages/admin/unit-permissions.tsx:115-117 | the key given to a new row is above every stored key |
| `UnitPermissions.UserLabel` | src/pages/admin/unit-permissions.tsx:238-243 | the email of the first loaded user with that id, or `Bilinmeyen Kullanıcı` when none |
| `UnitPermissions.UnitLabel` | src/pages/admin/unit-permissions.tsx:239-244 | `name - description` of the first loaded unit with that id, or `Bilinmeyen Birim` when none |
| `UnitPermissions.UnitPermissionsPage.constructor` | src/pages/admin/unit-permissions.tsx:55-89 | the loaded page: tables as loaded, nothing selected, no alert |
| `UnitPermissions.UnitPermissionsPage.SelectUser` | src/pages/admin/unit-permissions.tsx:188 | records the selected user |
| `UnitPermissions.UnitPermissionsPage.SelectUnit` | src/pages/admin/unit-permissions.tsx:204 | records the selected unit |
| `UnitPermissions.UnitPermissionsPage.AddPermission` | src/pages/admin/unit-permissions.tsx:91-131 | a missing selection or an existing pair is rejected with the table unchanged; a failed insert changes nothing; otherwise exactly one row with the pair is appended under a key no stored row has, and the selection cleared; pair uniqueness is preserved |
| `UnitPermissions.UnitPermissionsPage.InsertSelected` | src/pages/admin/unit-permissions.tsx:115-124 | appends the selected pair as one new row, reports success and clears the selection |
| `UnitPermissions.UnitPermissionsPage.RemovePermission` | src/pages/admin/unit-permissions.tsx:133-155 | a successful delete leaves exactly the rows with another id; a failed one changes nothing; pair uniqueness is preserved |
| `UnitPermissions.GrantTwiceStoresOnce` | src/pages/admin/unit-permissions.tsx:104-117 | adding the same pair twice to an empty table grants it once, reports the second add as a duplicate, and stores exactly one row |
| `SurveysPage.CheckPermission` | src/pages/surveys.tsx:37-84 | lookup failure is an error, no user means login, an administrator is allowed whatever the grants; a non-admin allowed only with a grant; `PGRST116` denies, any other lookup error fails; without a lookup fault a non-admin is allowed exactly when their own (user, unit) pair is stored once, whatever other pairs are duplicated; with unique pairs, allowed exactly when admin or granted |
| `SurveysPage.LoadData` | src/pages/surveys.tsx:86-115 | a listing shows the requested unit and is exactly the unit survey query: the unit's surveys, each as often as stored, newest first; a listing appears exactly when the unit lookup succeeds with one row and the survey query succeeds, otherwise the error alert |
| `SurveysPage.Open` | src/pages/surveys.tsx:31-84 | no unit parameter keeps loading; login redirect exactly without a user; the no-access alert exactly on denial, with no surveys; a failed permission check shows the error alert; once access is allowed the page is exactly what `loadData` renders |
| `UnitSurveys.CheckAccess` | src/pages/surveys/index.tsx:49-64 | no user means login, an administrator is allowed; a non-admin is allowed exactly when the lookup does not fail and their own pair is stored once, so a failed grant lookup counts as no grant |
| `UnitSurveys.LoadSurveys` | src/pages/surveys/index.tsx:21-81 | login redirect exactly without a user; a rejected user lookup shows the unexpected-error alert; the no-access error exactly on denial; a failed survey query after access shows the query error; a listing is exactly the unit survey query: the unit's surveys, each as often as stored, newest first |
| `UnitSurveys.PagesAgreeOnRule` | src/pages/surveys/index.tsx:62 | with unique pairs and no lookup error, both unit pages decide alike: admin or grant holder |
| `UnitSurveys.PagesDifferOnFailedLookup` | src/pages/surveys/index.tsx:55-64 | a grant lookup failing with another code denies here, but is an error on the other unit page |
| `UnitSurveys.DuplicatedGrantDenies` | src/pages/surveys/index.tsx:55-62 | in any table, a non-administrator whose (user, unit) grant is stored more than once is denied by both unit pages, although they hold a grant |
| `SurveyManagement.FilterSurveys` | src/pages/admin/surveys/index.tsx:37-48 | a blank term shows every row; otherwise exactly the rows whose lowercased title, description or unit name includes the lowercased term, in loaded order; rows without a unit match only by title or description |
| `SurveyManagement.FilterSurveysCounts` | src/pages/admin/surveys/index.tsx:42-46 | each matching row appears as often as it was loaded |
| `SurveyManagement.TrailingSpaceMissesExactTitle` | src/pages/admin/surveys/index.tsx:38-45 | the term is not trimmed for matching: `word ` does not find the survey titled `word` |
| `SurveyManagement.WithoutResponsesTo` | src/pages/admin/surveys/index.tsx:117-120 | removes exactly the responses to that survey, keeping every other response as often as stored, in order |
| `SurveyManagement.WithoutSurvey` | src/pages/admin/surveys/index.tsx:125-128 | removes exactly the survey with that id, keeping every other survey as often as stored, in order |
| `SurveyManagement.CascadeKeepsParents` | src/pages/admin/surveys/index.tsx:116-130 | deleting responses first and then the survey leaves no response without its survey |
| `SurveyManagement.DeletingResponsesKeepsParents` | src/pages/admin/surveys/index.tsx:116-122 | stopping after the response delete leaves no orphan |
| `SurveyManagement.SurveyAloneOrphans` | src/pages/admin/surveys/index.tsx:116-130 | deleting the survey without its responses would leave an orphan |
| `SurveyManagement.SurveyManagementPage.constructor` | src/pages/admin/surveys/index.tsx:22-31 | the page's initial state over the two tables |
| `SurveyManagement.SurveyManagementPage.OpenDeleteModal` | src/pages/admin/surveys/index.tsx:98-101 | remembers the survey and opens the dialog |
| `SurveyManagement.SurveyManagementPage.CloseDeleteModal` | src/pages/admin/surveys/index.tsx:103-106 | closes the dialog and forgets the survey |
| `SurveyManagement.SurveyManagementPage.DeleteSurvey` | src/pages/admin/surveys/index.tsx:108-141 | nothing selected changes nothing; a failed response delete leaves both tables; a failed survey delete leaves the survey; success removes the survey and its responses, closes the dialog; never leaves an orphan response |
| `UserManagement.OrElse` | src/pages/admin/users.tsx:44-45 | `value || fallback`: the empty string falls back |
| `UserManagement.LoadUsers` | src/pages/admin/users.tsx:25-57 | lookup error, missing session and non-admin each give their error and no list; an administrator gets exactly one row, their own, email defaulting to `Kullanıcı` |
| `UserManagement.ListedRoleIsAdmin` | src/pages/admin/users.tsx:36-45 | the listed role is always `admin`; the `'user'` default never applies |
| `UserManagement.FilterUsers` | src/pages/admin/users.tsx:116-118 | exactly the users whose lowercased email includes the lowercased term, each as often as listed, in order; an empty term keeps all |
| `UserManagement.LongerTermNarrows` | src/pages/admin/users.tsx:116-118 | a term including another finds no user the shorter one missed |
| `Navbar.OnAuthEvent` | src/components/Navbar.tsx:17-31 | sign-in and token refresh log in and set admin from the session role; sign-out clears both; other events change nothing |
| `Navbar.BeginCheck` | src/components/Navbar.tsx:40 | the lookup starts with `loading` set and the flags unchanged |
| `Navbar.FinishCheck` | src/components/Navbar.tsx:41-55 | a user logs in and may set, never clear, admin; no user clears both; a rejected lookup keeps both; `loading` ends false |
| `Navbar.Next` | src/components/Navbar.tsx:17-56 | every transition keeps admin ⇒ logged in |
| `Navbar.RunKeepsConsistent` | src/components/Navbar.tsx:8-56 | any sequence of events and lookups keeps admin ⇒ logged in |
| `Navbar.NeverAdminMenuWithLoginLinks` | src/components/Navbar.tsx:80-115 | from the initial state, the administration menu never shows beside the login links, and once loading ends it shows with the logout link |
| `Navbar.StaleCheckUndoesSignOut` | src/components/Navbar.tsx:38-49 | a lookup begun before a sign-out and finished after it logs the user back in |
| `Navbar.CheckKeepsStaleAdmin` | src/components/Navbar.tsx:19-46 | after a demotion the lookup keeps the admin flag, while a sign-in event clears it |
| `Navbar.NavigationBar.constructor` | src/components/Navbar.tsx:8-10 | logged out, not admin, loading |
| `Navbar.NavigationBar.OnAuthStateChange` | src/components/Navbar.tsx:17-31 | the callback makes the `OnAuthEvent` transition and keeps admin ⇒ logged in |
| `Navbar.NavigationBar.BeginCheckAuth` | src/components/Navbar.tsx:38-40 | sets `loading` only |
| `Navbar.NavigationBar.FinishCheckAuth` | src/components/Navbar.tsx:41-55 | makes the `FinishCheck` transition and keeps admin ⇒ logged in |

## Left out

- Network and auth-client I/O. Each request's outcome is an input, and `router.push` is an outcome value.
- Random question ids (`Math.random`) are a parameter. The database's generated permission keys are a counter, `nextId`.
- Timestamps are parameters or stored integers. Date formatting and the Turkish locale are not modelled.
- Lowercasing covers ASCII letters only, not full Unicode case mapping.
- Concurrent requests and React's batching are not modelled. Each handler runs to completion against the current table. The only exception is the navigation bar's lookup, whose two halves may interleave with auth events.
- Reloading after add, remove or delete (`loadData`, `loadSurveys`) is not modelled. The tables the handlers change stand for the reloaded lists.
- The administrator gates (`checkAdmin`) of the admin pages are not modelled. They repeat the role test modelled in `LoadUsers` and `CheckPermission`.
- `handleRoleChange` and `handleDeleteUser` in src/pages/admin/users.tsx are not modelled. They only call the auth client and then reload.
- `loadUnitName` in src/pages/surveys/index.tsx is not modelled. It only fills the heading, and its failure is only logged.
- Survey fields `start_time` and `duration` are not modelled, and neither is the question list's per-type option validation. The form does not check either.
- Response aggregation and result percentages are not modelled. No core file computes them.
- SurveyEditor.UpdateOption: requires the index to be in range for every matching question that has options. The form only passes such indices. A JavaScript write past the end would grow a sparse array, which this model does not represent.
- Tables.SurveysOfUnit: rows with equal `created_at` may come back in any order. The contract states the order only up to such ties.
- UnitPermissions.UnitPermissionsPage.AddPermission: error messages are an enumeration, not the text including the database's message.
- SurveyManagement.SurveyManagementPage.DeleteSurvey: error messages are an enumeration, not the text including the database's message.
