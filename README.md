# gamblerpro2 ledger core in Dafny

gamblerpro2 is a Laravel application that a chain of slot-machine casinos uses to run its cash ledger. Every branch (sucursal) has machines (maquinas). Staff record periodic meter readings (lecturas_maquinas) and expenses (gastos). From time to time a branch is closed: a cash closing (cierre_caja) sums the branch's open readings and expenses, and stamps its id on each of them.

This project models the ledger core as one object, `Ledger.Database`. It holds:

- the machine, reading and expense tables, as maps from id to row;
- the list of closings;
- the auto-increment counters.

Every controller action is a method of that class. Each method is specified by a pure function of the old tables, and lemmas about those functions state what the code promises. The modules are:

- `Domain`: the rows, the user and its roles, the tables the core only reads (branches with their casinos, expense types, providers), and the error kinds.
- `Schema`: the table invariants that the schema and the controllers keep. They are the unique `(maquina_id, fecha)` index, at most one pending reading per machine and branch, unique `ndi`, and the foreign keys.
- `Chain`: the reading arithmetic, and the forward cascade that an edit runs along a machine's later readings.
- `Totals`: the `where` selections, the column sums and minima/maxima, the two closings' rows and stamps, and the batch confirmation.
- `LecturaPolicy` and `GastoPolicy`: the two authorization policies, as standalone predicates.
- `Ledger`: the request datatypes, the request rules and role guards, the two loops as methods on local maps, and the `Database` class.

Amounts are exact `real`s. Business dates (`fecha`) are day numbers. Instants (`created_at`, `fecha_confirmacion`, "now") are seconds, and "now" is always a parameter. A user holds a set of the four seeded roles.

## Model

| member | source | states |
|---|---|---|
| Domain.HasAnyRoleIsNonEmpty | database/seeders/RolesSeeder.php:19 | holding one of the four seeded roles is the same as holding any role at all |
| Schema.InsertKeepsLecturaInvariants | app/Http/Controllers/LecturasController.php:305-341 | a reading that passed the pending-pair check and the unique (maquina_id, fecha) check can be inserted without breaking either invariant |
| Chain.Recompute | app/Http/Controllers/LecturasController.php:388-400 | the recomputed row has the given carry-in, satisfies neto_final = entrada - salida - jackpots, creditos = neto_final - neto_inicial, recaudo = creditos * denominacion, and keeps its counters and identity columns |
| Chain.InsertByDateKeepsOrder | app/Http/Controllers/LecturasController.php:406 | inserting into a date-ordered duplicate-free list keeps it date-ordered and duplicate-free |
| Chain.LaterByDate | app/Http/Controllers/LecturasController.php:403-407 | the cascade query lists exactly the readings of the machine dated after the edited date, in any branch, without duplicates, in ascending date order |
| Chain.LaterByDateStrict | app/Http/Controllers/LecturasController.php:403-407 | under the unique (maquina_id, fecha) index the listed dates are strictly increasing |
| Chain.Cascade | app/Http/Controllers/LecturasController.php:411-426 | the foreach keeps the table's keys, every row's counters and identity columns, and every row it does not walk |
| Chain.CascadeAt | app/Http/Controllers/LecturasController.php:411-426 | each walked row is its old row recomputed with the previous walked row's neto_final (the first with the starting value) as carry-in |
| Chain.CascadeLastIsLastRow | app/Http/Controllers/LecturasController.php:409-431 | `$prevNeto` ends as the neto_final of the last walked row, or as its starting value when nothing is walked |
| Chain.EditWalksLater | app/Http/Controllers/LecturasController.php:403-407 | an edit walks exactly the machine's readings dated after the edited one, in strictly ascending date order |
| Chain.EditFrame | app/Http/Controllers/LecturasController.php:392-426 | an edit keeps the table's keys, stores the recomputed row, and leaves earlier readings and other machines' readings untouched |
| Chain.EditCascadeChain | app/Http/Controllers/LecturasController.php:409-426 | after an edit the chain invariant holds along the walked suffix: each later row's neto_inicial is the previous row's neto_final, and each keeps its counters and satisfies the derivation law |
| Chain.EditCascadeLast | app/Http/Controllers/LecturasController.php:428-431 | the machine's new ultimo_neto_final is the neto_final of the latest-dated reading of the chain, or of the edited row when none is later |
| Chain.MachineEditKeepsValid | app/Http/Controllers/LecturasController.php:428-431 | rewriting a machine's ultimo_neto_final keeps every table invariant |
| Chain.EditKeepsValid | app/Http/Controllers/LecturasController.php:386-432 | an edit together with its cascade keeps every table invariant |
| Totals.LecturaIds | app/Services/CierreService.php:22-24 | a reading query returns exactly the matching rows, each once, in ascending id order |
| Totals.GastoIds | app/Services/CierreService.php:26-28 | an expense query returns exactly the matching rows, each once, in ascending id order |
| Totals.LecturaIdsEmpty | app/Services/CierreService.php:30 | a reading query is empty exactly when no row matches |
| Totals.GastoIdsEmpty | app/Services/CierreService.php:30 | an expense query is empty exactly when no row matches |
| Totals.NullBranchSelectsNothing | app/Http/Controllers/CierreCajaController.php:20-34 | with no branch id both queries are empty (the column is not nullable), so such a closing always fails |
| Totals.MinOf | app/Services/CierreService.php:36-37 | a collection's min is null exactly on an empty collection; otherwise it is an element and a lower bound |
| Totals.MaxOf | app/Http/Controllers/CierreCajaController.php:47-48 | a collection's max is null exactly on an empty collection; otherwise it is an element and an upper bound |
| Totals.MinPresent | app/Services/CierreService.php:35-38 | `filter()->min()` of two optional values: null only when both are, otherwise one of them and no larger than either |
| Totals.MaxPresent | app/Http/Controllers/CierreCajaController.php:54-56 | `filter()->max()` of two optional values: null only when both are, otherwise one of them and no smaller than either |
| Totals.WindowOrdered | app/Http/Controllers/CierreCajaController.php:44-56 | when something is selected the business-date window exists and fecha_inicio <= fecha_fin |
| Totals.StampByIdsIsStampByPredicate | app/Services/CierreService.php:60-68 | stamping the selected ids and stamping by the selecting predicate change the same rows |
| Totals.StampedAreTheOpen | app/Http/Controllers/CierreCajaController.php:70-72 | after a fresh closing id is stamped, the readings carrying it are exactly the branch's previously open readings |
| Totals.StampedGastosAreTheOpen | app/Http/Controllers/CierreCajaController.php:74-76 | after a fresh closing id is stamped, the expenses carrying it are exactly the branch's previously open expenses |
| Totals.ClosingReconciles | app/Http/Controllers/CierreCajaController.php:39-41 | the sums over the open rows equal the sums over the rows that carry the new closing id afterwards |
| Totals.ClosingAbsorbsOnce | app/Services/CierreService.php:22-32 | once a branch is closed no open row of it remains, so the next closing finds nothing; a row already closed keeps its closing |
| Totals.StampTouchesOnlyOpen | app/Services/CierreService.php:60-68 | a closing changes no row of another branch and no closed row, and an absorbed row changes only in cierre_id |
| Totals.ConfirmLeavesNothingPending | app/Http/Controllers/LecturasController.php:485-506 | after a confirmation the branch has no pending reading, so repeating it fails |
| Totals.ConfirmTouchesOnlyPending | app/Http/Controllers/LecturasController.php:494-499 | confirmation sets confirmado, and fecha_confirmacion to the one given instant, on exactly the branch's pending readings and changes nothing else |
| Totals.ConfirmAllIsConfirmPending | app/Http/Controllers/LecturasController.php:485-506 | confirming the selected rows one by one confirms exactly the branch's pending readings |
| Totals.ConfirmKeepsValid | app/Http/Controllers/LecturasController.php:494-499 | confirmation keeps every table invariant |
| Totals.CreatedWindowCovers | app/Services/CierreService.php:35-38 | the service's fecha_inicio is no later than the created_at of any row it absorbs |
| Totals.BusinessWindowCovers | app/Http/Controllers/CierreCajaController.php:44-56 | the controller's window spans the business date of every row it absorbs |
| Totals.StampKeepsValid | app/Http/Controllers/CierreCajaController.php:59-76 | inserting a closing and stamping the open rows by predicate keeps every table invariant |
| Totals.ServiceStampKeepsValid | app/Services/CierreService.php:48-68 | inserting a closing and stamping the selected ids keeps every table invariant |
| Totals.ServiceClosingMeaning | app/Services/CierreService.php:35-68 | the service's closing reconciles with the rows that carry its id, its net is collected minus spent, no open row of the branch is left, and its window starts no later than any absorbed row's creation |
| Totals.CajaClosingMeaning | app/Http/Controllers/CierreCajaController.php:24-76 | the controller's closing reconciles with the rows that carry its id, its net is collected minus spent, its window is not inverted and spans every absorbed row's date, and no open row of the branch is left |
| LecturaPolicy.ViewAny | app/Policies/LecturaPolicy.php:13-16 | always refused |
| LecturaPolicy.View | app/Policies/LecturaPolicy.php:21-24 | always refused |
| LecturaPolicy.Create | app/Policies/LecturaPolicy.php:29-32 | allowed exactly for a user holding one of the four roles |
| LecturaPolicy.CanSeeSucursal | app/Policies/LecturaPolicy.php:45-56 | role by role in order of privilege: master always; casino admin iff the branch is in the user's casino; branch admin or cashier iff the branch is the user's own (strict, so a null branch never matches); no role never |
| LecturaPolicy.UpdateOnClosed | app/Policies/LecturaPolicy.php:37-41 | on a closed reading, update is allowed iff the user is not a cashier, whatever the branch, scope or directory |
| LecturaPolicy.UpdateOnOpen | app/Policies/LecturaPolicy.php:42-55 | on an open reading, update is branch visibility, answered role by role |
| LecturaPolicy.DeleteIsUpdate | app/Policies/LecturaPolicy.php:62-65 | delete answers exactly as update |
| LecturaPolicy.Restore | app/Policies/LecturaPolicy.php:70-73 | always refused |
| LecturaPolicy.ForceDelete | app/Policies/LecturaPolicy.php:78-81 | always refused |
| GastoPolicy.ViewAny | app/Policies/GastoPolicy.php:16-19 | always refused |
| GastoPolicy.View | app/Policies/GastoPolicy.php:24-27 | always refused |
| GastoPolicy.Create | app/Policies/GastoPolicy.php:32-35 | allowed exactly for a user holding one of the four roles |
| GastoPolicy.CanSeeSucursal | app/Policies/GastoPolicy.php:51-68 | as for readings, but the branch comparison is on `(int)` casts, so a null user branch matches branch 0 |
| GastoPolicy.UpdateIsVisibilityUnlessClosedForCajero | app/Policies/GastoPolicy.php:40-49 | a cashier never updates a closed expense; otherwise update is exactly branch visibility, so a permitted update implies visibility |
| GastoPolicy.DeleteIsUpdate | app/Policies/GastoPolicy.php:74-77 | delete answers exactly as update |
| GastoPolicy.Restore | app/Policies/GastoPolicy.php:82-85 | always refused |
| GastoPolicy.ForceDelete | app/Policies/GastoPolicy.php:90-93 | always refused |
| GastoPolicy.PoliciesDisagreeOnClosedRows | app/Policies/GastoPolicy.php:40-49 | for every pure casino administrator, every closed reading and every closed expense of a branch outside the casino: the reading policy allows the update and the expense policy refuses it |
| Ledger.NewLectura | app/Http/Controllers/LecturasController.php:267-341 | the stored reading has missing salida/jackpots as 0; the carry-in is the machine's ultimo_neto_final for a cashier and the request's otherwise; the derived columns are the client's; it is confirmed (with fecha_confirmacion = now) iff the user is master; it is open |
| Ledger.MayManage | app/Http/Controllers/MaquinasController.php:114-120 | a casino administrator passes iff the branch's casino is the user's, compared strictly; a branch administrator passes iff the branch is the user's own, compared loosely; other roles always pass |
| Ledger.MayTransfer | app/Http/Controllers/MaquinasController.php:218-228 | a casino administrator needs both branches in the user's casino; a branch administrator without the casino role is always refused; other roles always pass |
| Ledger.TransferStaysInCasino | app/Http/Controllers/MaquinasController.php:218-225 | a transfer a casino administrator may make stays inside one casino, the user's |
| Ledger.ConfirmEach | app/Http/Controllers/LecturasController.php:494-505 | the foreach over the selection confirms exactly the selected rows |
| Ledger.CascadeEach | app/Http/Controllers/LecturasController.php:409-426 | the foreach over the later readings yields the cascade's table and `$prevNeto` |
| Ledger.Database.constructor | database/migrations/2025_10_02_173955_create_lectura_maquinas_table.php:14-31 | the tables start empty and satisfy every invariant |
| Ledger.Database.StoreLectura | app/Http/Controllers/LecturasController.php:251-348 | fails, writing nothing, iff the machine is missing, a pending reading exists for the pair, a confirmed one exists for the pair on that date, or the insert breaks a foreign key or the unique index (each error iff its condition); otherwise inserts the NewLectura row and sets the machine's ultimo_neto_final to the row's neto_final |
| Ledger.Database.UpdateLectura | app/Http/Controllers/LecturasController.php:363-435 | fails, writing nothing, iff the reading is missing or it is confirmed and the user is not master; otherwise the table is the edit with its cascade and the machine's ultimo_neto_final is the value the cascade ends with |
| Ledger.Database.DestroyLectura | app/Http/Controllers/LecturasController.php:440-466 | same refusal as update, without looking at cierre_id; otherwise removes only that row and rolls the machine's ultimo_neto_final back to the row's neto_inicial |
| Ledger.Database.ConfirmarLecturas | app/Http/Controllers/LecturasController.php:469-509 | administrators must name an existing branch, others use their own; fails iff the branch has no pending reading; otherwise confirms the branch's pending readings and touches nothing else |
| Ledger.Database.CerrarSucursal | app/Services/CierreService.php:18-72 | fails, writing nothing, iff the branch has no open reading and no open expense; otherwise appends the service's closing row and stamps its id on exactly the selected ids |
| Ledger.Database.StoreCierreCaja | app/Http/Controllers/CierreCajaController.php:16-80 | closes the user's branch, or the request's when the user has none; fails iff nothing is open there; otherwise appends the controller's closing row and stamps its id on every open row of the branch |
| Ledger.Database.StoreGasto | app/Http/Controllers/GastosController.php:63-81 | fails iff the type, the provider or valor >= 0.01 is wrong, or the branch is missing; otherwise inserts an open expense dated today for the user |
| Ledger.Database.UpdateGasto | app/Http/Controllers/GastosController.php:94-106 | fails iff the expense is missing, the expense policy refuses, or the request is invalid; otherwise overwrites only type, provider, date, value and description |
| Ledger.Database.DestroyGasto | app/Http/Controllers/GastosController.php:111-116 | fails iff the expense is missing or the policy's update ability refuses; otherwise removes only that row |
| Ledger.Database.StoreMaquina | app/Http/Controllers/MaquinasController.php:92-128 | fails iff the request rules (unique ndi, denominacion >= 1, ultimo_neto_final >= 0, existing branch) or the role guards fail; otherwise inserts an active machine with ultimo_neto_final defaulting to 0 |
| Ledger.Database.UpdateMaquina | app/Http/Controllers/MaquinasController.php:140-166 | the guards judge the machine's current branch; on success the five request columns are written, and ultimo_neto_final is kept when absent |
| Ledger.Database.ToggleMaquina | app/Http/Controllers/MaquinasController.php:168-174 | only activa changes, to false when absent |
| Ledger.Database.DestroyMaquina | app/Http/Controllers/MaquinasController.php:181-202 | refused outside the user's scope, and while the machine has any reading; otherwise removes only that machine |
| Ledger.Database.TransferMaquina | app/Http/Controllers/MaquinasController.php:205-237 | the target branch must exist (the `different:` rule names a request field, so it never refuses) and the transfer guard must pass; otherwise only the machine's branch changes, staying put on a transfer to its own branch, and its readings keep theirs |

## Left out

- The `index` methods, the reports and dashboard controllers, withholdings (retenciones), and the user, branch and provider controllers: they are queries and rendering or administrative CRUD outside the ledger.
- Routing, middleware, exports and the service provider's policy mapping: the actions are modelled as they are written, whether or not a route reaches them. Three details of routes/web.php are therefore not modelled:
  - The machine routes admit only the three administrator roles; the cashier case of `Ledger.MayManage` and `Ledger.MayTransfer` is the controller's, not reachable through those routes.
  - The expense update, the machine transfer and the closing store have no route in that file.
  - The reading update route names its parameter `{lecturas}`, while the action binds `$lectura`; the model hands the action the row.
- Transactions, row locking and concurrent closings: each action is one atomic method.
- The database's rounding of amounts to two decimals: amounts are exact reals.
- PHP float arithmetic: the edit (LecturasController.php:388-390) and its cascade (:419-421) compute neto_final, total_creditos and total_recaudo in binary floats from decimal strings; here they are exact reals, so float rounding before the database's is not modelled.
- Totals.ConfirmPending and Ledger.Database.ConfirmarLecturas stamp one `now` on every confirmed row, where the source calls `now()` once per row (LecturasController.php:498), so rows confirmed in one batch may differ by the time the loop takes.
- Type validation of requests (`integer`, `numeric`, `date`): the inputs are typed. Only the value rules are modelled.
- Time zones and Carbon parsing: a date is a day number, and an instant is seconds. `whereDate` compares day numbers.
- The users table and the `user_id` foreign key: the actor is a parameter and is assumed to exist.
- `codigo_interno` and names of display-only columns: never read by the core.
- Database errors on a reading store (unknown branch, or a second reading of the machine on that date in another branch) are all the single error `Constraint`.
- The lecturas_maquinas migration has no `cierre_id` column. The LecturaMaquina model's closing relation and both closings use one, so readings here carry a nullable `cierre_id`.
- `orderBy('fecha')` in the controller's closing: it does not change sums, minima or maxima, so the selection is kept in id order.
- `filter()` in the closing windows drops every falsy value. Here only null is dropped: instants and dates are assumed never to be 0.
- Integer columns are assumed to arrive as PHP integers, so the strict `===`/`!==` comparisons compare ids or null.
- The `?? 0` fallbacks on a reading's machine and denomination: the foreign key keeps the machine present.
- Ledger.Database.UpdateMaquina: an explicit null `ultimo_neto_final`, which the non-null column would reject, is treated as absent.
- Ledger.Database.UpdateGasto: the description is always written as the request gives it; PHP leaves it unchanged when the key is absent from the request.
- Error messages, redirects and HTTP status codes: each failure is one `Error` value.

In these places the model keeps the code's own, possibly surprising, choices:

- a reading is deleted without looking at its closing;
- an edit takes the request's `neto_inicial`;
- a store keeps the client's derived columns;
- a machine transfer to its own branch passes validation and succeeds without a change, although the rule's message asks for a different branch;
- the reading policy is a standalone predicate that the controller never calls.
