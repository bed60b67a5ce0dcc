# Project-management backend: a verified model

The system is an Express and MySQL backend for a project-management
dashboard. It covers:

- user accounts and roles (`users`, `DIG_ROL_USUARIO`, `DIG_ROLES`);
- role-to-menu permissions (`DIG_PERMISOS`, `DIG_MENU`);
- projects (`proyectos`);
- milestones (`hitos`);
- test plans (`planPruebas`);
- three dashboard charts.

This Dafny project models the request handlers of its eight controllers. Each
table is a sequence of records, held in one `Schema.Database` object along
with its AUTO_INCREMENT counters.

Handlers that change tables are methods on that object. Each method checks the
handler's guards in source order, changes only the fields its `modifies`
clause names, and returns a `Reply` (a status code with a message or a body).

Handlers that only read are functions over the table sequences. What such a
handler answers is stated as a relation to its input: membership, order,
counts, and the error cases.

Modules follow the controllers:

- `Navigation` for navigationController;
- `Grafica` for graficaController;
- `Auth` for authController;
- `Roles` for rolesController;
- `Hitos` for hitosController;
- `Proyectos` for proyectoController;
- `Pruebas` for pruebasController;
- `Tareas` for tareasController.

Shared modules:

- `Common`: replies, tokens, search, faults, and lookups and deletes by key;
- `Schema`: the rows and the database;
- `Sql`: queries as pieces and parameters;
- `Sorting`: a stable insertion sort that stands in for `ORDER BY`.

## Modelling choices

- **SQL text.** Built SQL text is a sequence of pieces: literal text and `?`
  holes.
  - Each `?` of the source's query text is written as a hole, and no
    literal piece contains a `?`. The literals are written that way; this is
    not proved.
  - A query is `Matched` when its holes equal its parameter count. Every
    builder is proved to produce a `Matched` query.
  - `Sql.RenderHoles` shows that, for pieces whose literals contain no `?`
    (`PlainText`), the hole count is the number of `?` characters in the
    rendered string.
- **Library calls.**
  - bcrypt's hash is passed in as a value, and its compare as the
    `matches` function.
  - `jwt.verify` is the `Header` value: no token, or a token with a verdict.
    The verdict is either the decoded claims or the name of the error thrown.
- **Time.**
  - `NOW()` and `new Date()` are a `now` parameter, with the fields of the
    JavaScript local-time getters; the month is 0-based.
  - Project dates are day numbers.
- **Validation.** Each express-validator chain of a route becomes the
  predicate that the controller's `validationResult` guard tests. Date and
  decimal checks are carried by the field types.
- **Database failures.** A failure is a `Fault` parameter naming the
  statement that throws. It is modelled where the handler's behaviour depends
  on which statement failed:
  - the permission transaction;
  - the username lookup and the two non-atomic inserts of user registration;
  - the three statements of test-plan registration: the project lookup, the
    milestone update and the plan insert.
- **LIKE.** `LIKE '%term%'` is modelled as substring containment.
- **Dashboard rows.** The due-date and state charts take the `proyectos`
  table and compute the rows their SELECT returns (`Grafica.DueRows`,
  `Grafica.EstadoRows`). The test-plan chart takes as a parameter the rows
  its grouped query returns. Each handler also builds its query text, which
  is modelled separately from the rows.
- **Keyed tables.** Lookups, deletes and `affectedRows` by a key column are
  `Common.FindKey`, `Common.WithoutKey` and `Common.CountKey`. Each table's
  handlers use them with that table's key.

## Source behaviours the model keeps

- `register` in authController answers 200, not 201.
- Its token carries no `rol`, so the dashboard answers such a token with
  403 (`Auth.RegisterTokenRefused`).
- `login` tells an inactive account apart from bad credentials before it
  checks the password (`Auth.LoginRevealsInactive`).
- `editUsers` updates the `DIG_ROL_USUARIO` row whose key equals the user's
  id (`Auth.EditLinksByKey`).
- `deleteRol` refuses a role still in use with 404 and changes nothing,
  although its message says the role was deactivated.
- `editRol` does not re-check name uniqueness (`Roles.EditRolAllowsDuplicate`).
- `editProyectos` does not re-check the date order
  (`Proyectos.EditAllowsReversedDates`).
- `crearHito`'s project-existence check tests the rows array, which is always
  truthy, so it never rejects. Its `!proyectoId` guard fires only for the
  number 0.
- `editarHito` and `eliminarHito` read `affectedRows` from the driver's
  `[rows, fields]` pair, so their 404 branch is never taken. They always
  answer 200.
- The route of `registerPlanDePrueba` validates `estadonuevoHito` without
  `optional()`. So the branch that skips the milestone update can never run
  after validation (`Pruebas.ValidPlanMovesHito`).
- The project list and the task list are joins with `users`: a project whose
  responsible user is missing is not listed (`Proyectos.OrphanNotListed`).
- In the menu order the parent entry is not always first in its group
  (`Navigation.MenusParentNotFirst`).

## Model

| member | source | states |
|---|---|---|
| Navigation.RegisterPermissions | controllers/navigationController.js:210-251 | 400 for a missing role id or permission list, before any access. 400 with rollback for an unknown role. Any database fault gives 500 with the permission table as before. On success the answer is 201 and the table is Replaced: the role's old rows go, then one row per grant in list order. The connection count is back to its old value on every exit. |
| Navigation.InsertGrants | controllers/navigationController.js:238-242 | Reports a failure exactly when one of the per-grant INSERT steps faults. Otherwise it appends one row per grant to the table, in list order. |
| Navigation.RowsOf | controllers/navigationController.js:235-241 | A row is kept iff it is one of the table's rows and belongs to the given role. |
| Navigation.WithoutRole | controllers/navigationController.js:235 | A row is kept iff it is one of the table's rows and belongs to another role: the DELETE of one role's rows. |
| Navigation.GrantRows | controllers/navigationController.js:237-241 | One (role, menu) row per list element, in list order, with duplicates kept. |
| Navigation.ReplacedRoleRows | controllers/navigationController.js:235-241 | After the replace, the role's rows are exactly the rows of its grant list. |
| Navigation.ReplacedOtherRoles | controllers/navigationController.js:235-241 | After the replace, every other role's rows are as before. |
| Navigation.ReplacedOverwrites | controllers/navigationController.js:235-243 | Two replaces of the same role leave what the second alone leaves. |
| Navigation.ReplacedIdempotent | controllers/navigationController.js:235-243 | Replacing with the same list twice equals replacing once. |
| Navigation.WithoutRoleTwice | controllers/navigationController.js:235 | Deleting one role's rows twice equals deleting them once. |
| Navigation.Menus | controllers/navigationController.js:144-170 | 404 exactly when no row qualifies. Otherwise the rows are sorted by (Ordenar, OrderNumber, MenuID) and are a permutation of the join. A row is returned iff its menu is visible and is reachable from the username through DIG_ROL_USUARIO, DIG_ROLES and DIG_PERMISOS. |
| Navigation.MenusNotFound | controllers/navigationController.js:152-165 | The 404 occurs iff no visible menu is reachable for the user. |
| Navigation.MenusGroupsContiguous | controllers/navigationController.js:147-158 | Rows with equal Ordenar are contiguous in the result. |
| Navigation.MenusChildBeforeParent | controllers/navigationController.js:147-158 | A child whose OrderNumber is below its parent's is listed before the parent. |
| Navigation.MenusParentNotFirst | controllers/navigationController.js:147-158 | A concrete table in which a child precedes its parent. |
| Navigation.Catalog | controllers/navigationController.js:176-180 | Every dig_menu row is tagged, one output row per input row. |
| Navigation.GetMenus | controllers/navigationController.js:172-207 | 404 iff the menu table is empty. Otherwise the result is sorted by (group, 0 or MenuID, Accion) and is a permutation of the tagged rows. |
| Navigation.GetMenusTopLeads | controllers/navigationController.js:187-196 | With positive MenuIDs, the top-level row of a group precedes every child row of that group. |
| Grafica.Access | controllers/graficaController.js:10-47 | 401 without a token. 500 for a token that does not verify. 403 for a token without `rol`. 400 exactly for a non-admin without a URL id. Otherwise the scope is Admin iff rol is 1, and an Owner scope has the URL id. |
| Grafica.DateFilterOf | controllers/graficaController.js:40 | The date filter applies iff both dates are given, and then it carries them. |
| Grafica.DueQuery | controllers/graficaController.js:34-57 | Holes match params in every branch. The params are the owner id followed by the range. The owner filter is present iff the scope is Owner. |
| Grafica.EstadoQuery | controllers/graficaController.js:135-158 | Holes match params. The params are the owner id, then the range twice. The owner filter is present iff the scope is Owner. |
| Grafica.PruebaWhere | controllers/graficaController.js:253-274 | Extends a matched query to a matched query. It appends the owner id and two ranges to the params. |
| Grafica.AdminWhere | controllers/graficaController.js:254-260 | For an administrator, no owner filter is added and the params grow by the two date ranges only when both dates are given. |
| Grafica.OwnerWhere | controllers/graficaController.js:261-273 | For other users, the owner filter is always added. The params grow by the user id followed by the two date ranges. |
| Grafica.PruebaQuery | controllers/graficaController.js:239-276 | Holes match params. The owner filter is present iff the scope is Owner. The query ends with the GROUP BY. |
| Grafica.DueRows | controllers/graficaController.js:34-61 | A row is selected iff its project is in scope and, when filtered, its end day lies within the range. |
| Grafica.EstadoRows | controllers/graficaController.js:135-162 | A row is selected iff its project is in scope and, when filtered, either date lies within the range. |
| Grafica.ClassifyDue | controllers/graficaController.js:72-80 | The forEach loop yields exactly the overdue and the on-time name lists. |
| Grafica.DueCounts | controllers/graficaController.js:72-98 | The two lists together are a permutation of the row names. Their lengths sum to the row count. |
| Grafica.DueOrder | controllers/graficaController.js:72-80 | Each list keeps the input order: it is a subsequence of the names. |
| Grafica.DueMembers | controllers/graficaController.js:72-80 | A name is overdue iff some row with it ends strictly before today; it is on time iff some row with it does not. |
| Grafica.GetVencimientoProyectos | controllers/graficaController.js:5-103 | The Access failures pass through. Otherwise 404 for no rows, else 200 with the two lists and their counts. |
| Grafica.VencimientoCounts | controllers/graficaController.js:82-98 | The two counts sum to the number of rows the query selects. |
| Grafica.CountEstados | controllers/graficaController.js:169-186 | The loop computes the tally of the three states. |
| Grafica.TalliedBound | controllers/graficaController.js:169-186 | The three counters sum to at most the row count, with equality iff every row has a counted state. |
| Grafica.TalliedLast | controllers/graficaController.js:176-186 | One more row raises the total by one exactly when its state is one of the three counted states. |
| Grafica.GetEstadoProyectos | controllers/graficaController.js:106-206 | The Access failures pass through. Otherwise 404 for no rows, else 200 with the tally. |
| Grafica.Bump | controllers/graficaController.js:307-332 | Adds `cantidad` to the counter of the row's state and leaves the others. An unknown or null state changes nothing. |
| Grafica.GroupPruebas | controllers/graficaController.js:287-333 | The loop builds exactly the grouped map. |
| Grafica.GroupedKeys | controllers/graficaController.js:290-305 | A name is a key iff some row carries it, so rows with equal names merge. |
| Grafica.GroupedCounters | controllers/graficaController.js:287-333 | Each counter is the sum of `cantidad` over the rows with that name and state. |
| Grafica.GroupedAbsentSum | controllers/graficaController.js:287-333 | A name absent from the map has no rows to sum. |
| Grafica.GroupedUnknownState | controllers/graficaController.js:294-332 | A row with an unknown state still adds its name, with zero counters. |
| Grafica.GetEstadoPrueba | controllers/graficaController.js:210-339 | The Access failures pass through. Otherwise 404 for no rows, else 200 with the grouped map. |
| Auth.FindByUsername | controllers/authController.js:127-131 | None iff no row has the username; a found row has it. |
| Auth.FindByUsernameAppend | controllers/authController.js:138-145 | After inserting a fresh username, the lookup finds the new row. |
| Auth.Register | controllers/authController.js:117-168 | Failures, each with nothing written: 400 on failed validation, 500 on a failed lookup, 400 for a taken username. A failed first insert writes nothing. A failed second insert keeps the users row and its counter step. Otherwise exactly one users row and one DIG_ROL_USUARIO row are added, each keyed by its counter, both counters advance by one, and the token payload has the id and username but no rol. |
| Auth.RegisterTokenRefused | controllers/authController.js:148-156 | The registration token is answered with 403 by the dashboard's role check. |
| Auth.Login | controllers/authController.js:171-218 | 400 on failed validation. Success iff the user exists, is active and the password matches; it signs id, username and rol from the row. Once validation passes: an unknown user name gets 400 with the bad-credentials message, an inactive account 400 with the inactive message, an active account with a wrong password 400 with the bad-credentials message. The inactive message is given only for an existing, inactive user. |
| Auth.LoginRevealsInactive | controllers/authController.js:184-198 | For an inactive user the answer does not depend on the password, and differs from the answer for an unknown username. |
| Auth.RegisterThenLogin | controllers/authController.js:117-218 | After a fresh registration, a login with the same password succeeds (the default state being active). It signs the new id, the username and the role the registration token lacked. |
| Auth.Toggle | controllers/authController.js:20 | The new state is 0 or 1, and 0 iff the old state is 1. |
| Auth.ToggleTwice | controllers/authController.js:20 | Toggling twice restores a state of 0 or 1. |
| Auth.SetEstado | controllers/authController.js:20-24 | Only the rows with the id change, and only in state and creation date. |
| Auth.DeactivateUser | controllers/authController.js:8-35 | 404 for a missing id, with nothing changed. Otherwise the row gets the toggled state and `now` as its creation date. |
| Auth.DeactivateTwice | controllers/authController.js:8-35 | Two toggles give back a state of 0 or 1. |
| Auth.FindByIdMapped | controllers/authController.js:23-24 | The lookup after the update finds the updated row. |
| Auth.KeptPassword | controllers/authController.js:50-58 | An empty password keeps the stored hash; a non-empty one is replaced by its hash. |
| Auth.EditRows | controllers/authController.js:60-68 | Only the rows with the id change, with the names, state, rol and chosen hash. |
| Auth.EditLinks | controllers/authController.js:70-78 | Only the link rows whose key equals the user id change. |
| Auth.EditUsers | controllers/authController.js:38-85 | 404 for a missing id, with nothing changed. Otherwise the users table becomes EditRows and the links become EditLinks. |
| Auth.EditLinksByKey | controllers/authController.js:71-78 | A concrete table in which another user's link row is the one rewritten. |
| Auth.DeleteUser | controllers/authController.js:221-245 | 404 for a missing id, with nothing changed. Otherwise the table becomes WithoutUser and the answer is 200. |
| Auth.DeleteShrinks | controllers/authController.js:226-238 | Deleting an existing id shrinks the table and leaves no row with that id. |
| Auth.GetUsers | controllers/authController.js:89-113 | Sorted by id descending, and a permutation of the matching rows' views. A view is listed iff some user with a matching username has it. |
| Auth.MatchingUsers | controllers/authController.js:97-100 | A view is kept iff some user with a matching username has it. |
| Auth.GetUsersAll | controllers/authController.js:93-106 | Without a search every user is listed. |
| Auth.GetUsersDeterminate | controllers/authController.js:102 | With unique ids, any sorted permutation of the matching rows is the result. |
| Auth.GetUsersKeyed | controllers/authController.js:102 | With unique ids, the listed keys are distinct. |
| Roles.Register | controllers/rolesController.js:6-47 | 400 on failed validation. 401 without a token. 500 for a token that does not verify. 400 for a taken name. In each of these nothing is written. Otherwise one row keyed by the role counter is appended, created by the token's username; the counter advances by one and the answer is 201. |
| Roles.RegisterKeepsNamesUnique | controllers/rolesController.js:30-39 | Names unique before and a fresh name mean names unique after. |
| Roles.Renamed | controllers/rolesController.js:68-71 | Only the row with the id changes, and only in name and description. |
| Roles.EditRol | controllers/rolesController.js:51-78 | 400 on failed validation. 404 for a missing id. Otherwise the table becomes Renamed. |
| Roles.RenamedFrame | controllers/rolesController.js:68-71 | Other rows are untouched and the id and creation fields are kept. |
| Roles.EditRolAllowsDuplicate | controllers/rolesController.js:51-78 | A concrete table in which an edit gives two roles the same name. |
| Roles.UserCount | controllers/rolesController.js:125-126 | Positive iff some user has the role. |
| Roles.NavCount | controllers/rolesController.js:129-130 | Positive iff some navigation row has the role. |
| Roles.DeleteRol | controllers/rolesController.js:120-148 | A role in use gives 404 with the 'desactivado' message and nothing changed. Otherwise a missing id gives 404, else the table becomes WithoutRol and the answer is 200. |
| Roles.DeleteRolEffect | controllers/rolesController.js:133-142 | After deleting an unused role, its id is gone, every other row remains and no user refers to it. |
| Roles.Pad2 | controllers/rolesController.js:99-104 | At least two characters. |
| Roles.TwoDigits | controllers/rolesController.js:99-104 | Below 100 the padding gives exactly the tens digit followed by the units digit. |
| Roles.FourDigits | controllers/rolesController.js:101 | A four-digit year is rendered as its four digits. |
| Roles.FormatFechaRoundTrip | controllers/rolesController.js:97-110 | The rendering is 19 characters of the form dd/mm/yyyy HH:MM:SS. Reading its number fields back gives the day, month+1, year, hour, minute and second. |
| Roles.FormatFechaParts | controllers/rolesController.js:97-110 | The length, the seconds field and the head of the layout. |
| Roles.FormatFechaHead | controllers/rolesController.js:97-110 | The positions of the date fields and of the separators before the time. |
| Roles.FormatFechaDate | controllers/rolesController.js:97-110 | The time fields and their separators. |
| Roles.Pad2Value | controllers/rolesController.js:99-104 | A padded value below 100 is two digits that read back as the value. |
| Roles.YearValue | controllers/rolesController.js:101 | A four-digit year reads back as itself. |
| Roles.DigitsValue2 | controllers/rolesController.js:99-104 | Two digits read back as 10a+b. |
| Roles.NatToStringValue | controllers/rolesController.js:101 | Reading back the decimal rendering of any number gives the number. |
| Roles.MatchingRoles | controllers/rolesController.js:88-91 | A row is kept iff it is a role whose name contains the search term. |
| Roles.FormatAll | controllers/rolesController.js:97-110 | One formatted view per row, in order. |
| Roles.FormatAllSorted | controllers/rolesController.js:92-110 | Formatting keeps the descending id order. |
| Roles.FormatAllMembers | controllers/rolesController.js:97-110 | Formatting keeps the membership of the rows. |
| Roles.GetRoles | controllers/rolesController.js:81-116 | One view per matching role, ids descending. Every view formats a matching role, and every matching role's view is listed. |
| Roles.GetRolEdit | controllers/rolesController.js:152-168 | 404 iff no row has the id. Otherwise 200 with that row's id, name and description. |
| Hitos.GetProyecto | controllers/hitosController.js:7-21 | 404 iff no project has the id. Otherwise 200 with the id and that project's name. |
| Hitos.HitosOf | controllers/hitosController.js:74 | A milestone is kept iff it belongs to the project. |
| Hitos.GetHitos | controllers/hitosController.js:70-83 | 404 iff the project has no milestones. Otherwise 200 with exactly its milestones. |
| Hitos.GetHito | controllers/hitosController.js:87-101 | 404 with the 'Proyecto no encontrado' message iff no milestone has the id. Otherwise 200 with its view. |
| Hitos.CrearHito | controllers/hitosController.js:23-66 | 400 on failed validation. 400 for a proyectoId of 0. 400 for a duplicate (project, title). Otherwise one row keyed by the milestone counter is appended, the counter advances by one, and the answer is 201. The project's existence is never checked. |
| Hitos.CrearKeepsNamesUnique | controllers/hitosController.js:47-62 | Titles unique per project before, and a fresh title, mean titles unique per project after. |
| Hitos.EditCheck | controllers/hitosController.js:109-122 | The missing-fields message iff a field is missing or empty. Otherwise the date message iff a date does not parse. Otherwise the state message iff the state is not one of the three. None iff all pass. |
| Hitos.Edited | controllers/hitosController.js:126-129 | Only the rows with the id change, taking the five given fields. |
| Hitos.EditarHito | controllers/hitosController.js:103-142 | 400 with EditCheck's message and nothing changed. Otherwise always 200, with the table Edited. |
| Hitos.EditedAbsent | controllers/hitosController.js:126-134 | Editing a missing id changes nothing, although the answer is 200. |
| Hitos.EliminarHito | controllers/hitosController.js:145-166 | Always 200, with the table WithoutHito. |
| Proyectos.NewProyecto | controllers/proyectoController.js:61-67 | The inserted row carries the given id, fields and responsible user, and `now` as both timestamps. |
| Proyectos.Register | controllers/proyectoController.js:24-71 | Answers, in order: 400 on validation, 401 without a token, 500 for a token that does not verify, 400 when the end precedes the start, 400 for a duplicate (name, responsible). In each of these nothing is written. Otherwise exactly one NewProyecto row keyed by the project counter is appended, the counter advances by one, and the answer is 201. |
| Proyectos.RegisterKeepsInvariants | controllers/proyectoController.js:44-67 | A registration keeps (name, responsible) unique, and the new project's start is not after its end. |
| Proyectos.SameNameOtherResponsable | controllers/proyectoController.js:52-58 | A concrete table in which a taken name is accepted for another responsible user. |
| Proyectos.EditedRow | controllers/proyectoController.js:139-142 | The edited row keeps its id and creation date and takes `now` as its update date. |
| Proyectos.Updated | controllers/proyectoController.js:139-142 | Only the row with the id changes. |
| Proyectos.EditProyectos | controllers/proyectoController.js:122-150 | 400 on validation. 404 for a missing id. Otherwise the table becomes Updated and the answer is 200. |
| Proyectos.EditAllowsReversedDates | controllers/proyectoController.js:122-150 | A concrete edit that stores an end before the start. |
| Proyectos.DeleteProyecto | controllers/proyectoController.js:104-119 | The table becomes WithoutProyecto. The answer is 404 iff no row had the id, else 200. |
| Proyectos.Responsables | controllers/proyectoController.js:80 | A username is listed iff a user with that id has it. |
| Proyectos.Join | controllers/proyectoController.js:80-87 | A (project, username) pair is listed iff the project is kept and that user is its responsible user. |
| Proyectos.Listed | controllers/proyectoController.js:80-89 | Ids descending, and a permutation of the join. |
| Proyectos.GetProyectos | controllers/proyectoController.js:76-100 | Ids descending, and a permutation of the join under the name filter, so every pair appears as often as in the join. A pair is listed iff the project's name passes the search and the user is its responsible user. |
| Proyectos.OrphanNotListed | controllers/proyectoController.js:80 | A project without an existing responsible user is never listed. |
| Proyectos.GetProyecto | controllers/proyectoController.js:154-174 | 404 iff no project with the id has an existing responsible user. Otherwise 200 with such a project and its user's username. |
| Proyectos.GetResponsable | controllers/proyectoController.js:6-21 | 404 iff there are no users. Otherwise the id and username of every user, in order. |
| Pruebas.RegisterPlanDePrueba | controllers/pruebasController.js:27-95 | Failures, each with nothing written: 400 on validation, 401 without a token, 500 for a bad token or a failed lookup, 404 for a missing project, 404 when no milestone matches both ids. Otherwise the matching milestone takes the new state and one plan is inserted with the URL's project id, taking the next plan key, and the plan counter goes up by one. A failed insert keeps the milestone update and leaves the plans and the counter as they were. |
| Pruebas.SetEstadoIdsBelow | controllers/pruebasController.js:55-67 | The milestone update changes only states, so every milestone key stays below the milestone counter. |
| Pruebas.InsertPlan | controllers/pruebasController.js:69-87 | Appends exactly one plan row, keyed by the next plan counter, and advances that counter by one. The key invariant is kept. |
| Pruebas.Imagen | controllers/pruebasController.js:77 | A missing or empty image is stored as null; any other is stored as given. |
| Pruebas.ValidPlanMovesHito | controllers/pruebasController.js:55 | Whenever validation passes, the state is non-blank, so the milestone update always runs. |
| Pruebas.Matching | controllers/pruebasController.js:62-66 | Zero iff no milestone has both the milestone id and the project id. |
| Pruebas.SetEstado | controllers/pruebasController.js:56-62 | Only the milestones with both ids change, and only in state. |
| Pruebas.SetEstadoUnmatched | controllers/pruebasController.js:62-66 | With no match the update changes nothing. |
| Pruebas.NewPlan | controllers/pruebasController.js:70-87 | The plan has the URL's project id, the selected milestone, the stored image and `now`. |
| Pruebas.PutHito | controllers/pruebasController.js:138-160 | 404 for a missing milestone. Otherwise the table becomes Completed and the answer is 200. |
| Pruebas.Completed | controllers/pruebasController.js:144-152 | Only the milestone with the id changes, and it becomes 'Completado'. |
| Pruebas.CompletedIdempotent | controllers/pruebasController.js:144-152 | Completing twice equals completing once. |
| Pruebas.CompletedState | controllers/pruebasController.js:144-152 | The target is 'Completado' and every other milestone is an old row. |
| Pruebas.EditedPlan | controllers/pruebasController.js:211-233 | The keys, the creation date and the selected milestone are kept. The image is as stored, and the update date is `now`. |
| Pruebas.PlansEdited | controllers/pruebasController.js:211-233 | Only the plan with the id changes. |
| Pruebas.UpdatePlanDePrueba | controllers/pruebasController.js:183-245 | 400 on validation. 401 without a token. 500 for a bad token. 404 for a missing plan. Otherwise the plans become PlansEdited and the answer is 200. |
| Pruebas.DeletePrueba | controllers/pruebasController.js:249-264 | The plans become WithoutPlan. The answer is 404 iff no plan had the id, else 200. |
| Pruebas.StatesCharted | routes/pruebas.js:17-19 | The route's plan states are exactly the states the dashboard counts. |
| Pruebas.Resumen | controllers/pruebasController.js:12 | A summary is listed iff a milestone of the project has it. |
| Pruebas.GetHitos | controllers/pruebasController.js:7-23 | 404 iff the project has no milestones. Otherwise 200 with their summaries. |
| Pruebas.GetPruebaTest | controllers/pruebasController.js:165-181 | 404 iff no plan has the id. Otherwise 200 with the seven selected columns of a plan with that id: key, milestone and the five test fields, without the project key or the timestamps. |
| Tareas.TareasQuery | controllers/tareasController.js:21-33 | Holes match params. The user id is the first param, followed by the LIKE pattern when searching. The query ends with ORDER BY proyecto_id DESC. |
| Tareas.GetTareas | controllers/tareasController.js:6-47 | 401 without a token. 401 'Token no válido' for a bad signature. 500 for any other token error. Otherwise 200 with ids descending, and a permutation of the join under the owner, state and name filter. A row is listed iff its project is the user's, is in progress or suspended, passes the search, and is paired with its responsible user. |
| Tareas.TareasInProyectos | controllers/tareasController.js:21-33 | Every task is also a row of the project list for the same search. |
| Tareas.TareasExclude | controllers/tareasController.js:21-25 | A finished project, or another user's project, is never a task. |
| Sql.Append | controllers/graficaController.js:41-42 | An append adds its values to the params and keeps holes equal to params. |
| Sql.RenderHoles | controllers/graficaController.js:34-57 | When no literal contains '?', the '?' count of the rendered text equals the number of holes. |
| Sql.LikeParam | controllers/authController.js:99 | The pattern is the search term between two '%'. |
| Sorting.SortBy | controllers/authController.js:102 | The result is ordered by the key and is a permutation of the input. |
| Sorting.SortedUnique | controllers/authController.js:102 | With distinct keys, two sorted permutations of the same rows are equal. |
| Common.FindKey | controllers/proyectoController.js:133-136 | The lookup by key: None iff no row has the key; a found row is a table row with it. |
| Common.WithoutKey | controllers/hitosController.js:150-153 | The delete by key: a row remains iff it was present and has another key, and the table does not grow. |
| Common.CountKey | controllers/proyectoController.js:109-113 | The affected-row count: zero iff no row has the key, and at most the row count. |
| Common.WithoutKeyCount | controllers/proyectoController.js:109-113 | Rows removed plus rows kept equal the old row count. |
| Common.WithoutKeyAbsent | controllers/hitosController.js:150-158 | Deleting a missing key leaves the table as it was. |
| Common.WithoutKeyTwice | controllers/hitosController.js:150-153 | Deleting twice equals deleting once. |
| Common.WithoutKeyShrinks | controllers/authController.js:226-238 | Deleting a present key shrinks the table and leaves no row with that key. |
| Sql.SearchQuery | controllers/authController.js:93-102 | The list query of getUsers, getRoles and getProyectos: holes match params, the only param is the LIKE pattern when a term is given, and the query starts with its SELECT and ends with its ORDER BY. |

## Left out

- User registration in navigationController, and its `editNav`, `getNavigation` and
  `deleteNavigation`: they pass callbacks to a promise-based pool that never calls
  them, so they are not working operations.
- `getPruebasHitos` and `getPruebas` in pruebasController: they are plain lookups
  beyond the named core.
- `getUsersUnique` and `getRolesUser` in authController: they are lookups beyond the
  named core.
- bcrypt and jsonwebtoken: these are foreign libraries. Hashing is a value, compare
  is a function parameter, and verification is the `Header` verdict.
- The MySQL driver, the pool and `config/db.js`: replaced by the in-memory
  `Schema.Database`. Connection release is modelled only in `registerPermissions`.
- Database errors other than the modelled `Fault` steps: each of these handlers
  answers a generic 500, and the model does not enumerate them.
- Foreign keys and cascades: the source does not state them, so deletes in the
  model remove one table's rows only.
- `Date` parsing, moment and the time zone: dates are day numbers, and `now` is a
  parameter with the local-time getter fields.
- LIKE wildcards in the search term: `%` and `_` are not escaped by the source.
  The model treats the term as plain text.
- The admin date filter of `getEstadoPrueba` mixes AND and OR without
  parentheses. `Grafica.PruebaQuery` models its text and its placeholder count
  only, and `GetEstadoPrueba` takes the returned rows as a parameter.
- Grafica.GetEstadoPrueba: the grouped rows are a parameter rather than the
  result of running the built query over `planPruebas` and `proyectos`.
  `GetVencimientoProyectos` and `GetEstadoProyectos` compute their rows from
  the table, with `DueRows` and `EstadoRows`. No handler runs its built query
  text.
- Key order of JSON objects, and JSON types other than those modelled, are not
  represented.
- The routes, `middlewares/auth.js`, `routes/protegidas.js` and `app.js`: routing
  and start-up. The validation chains appear only as the guard predicates.
- Concurrent requests: the check-then-insert races are not modelled. The model
  handles one request at a time.
- Chart labels and colours: presentation only.
- String comparison: every `=` and `LIKE` on text is modelled as exact,
  case- and accent-sensitive comparison. This is a binary collation. MySQL's
  default collations ignore case, and `utf8mb4_0900_ai_ci` also ignores
  accents. Under those, the model differs when two strings differ only in
  case or accents. Affected: the username lookup of `register` and `login`
  (`Auth.FindByUsername`), role-name uniqueness (`Roles.NameTaken`), milestone
  and project duplicate checks (`Hitos.HitoExists`, `Proyectos.Assigned`),
  the menu join on the username (`Navigation.Menus`), and every `LIKE`
  search (`Common.PassesSearch`).
- Table names: the model treats each table as one table, however the source
  spells it. The source writes `dig_permisos` and `DIG_PERMISOS`, `dig_roles`
  and `DIG_ROLES`, and `dig_menu` and `DIG_MENU`. These are one table only
  when the server's `lower_case_table_names` is not 0, and 0 is the Linux
  default. With that setting, one of the statements of `registerPermissions`
  names a missing table, so the handler answers 500.
- Grafica.Grouped, Grafica.GroupedKeys, Grafica.GroupPruebas: the source
  groups into a plain JavaScript object. A project name that is an
  `Object.prototype` member (`constructor`, `toString`, `hasOwnProperty`,
  `__proto__`) finds an inherited value: the first-seen test fails,
  the counters are never set up, and `res.json` leaves the name out. The
  model's map lists such a name with its counts like any other.
- Auth.Register: the default `u_estado` of a new user is not stated by the
  controller. The model takes it as the constant `DEFAULT_ESTADO`.
