# Pedidos: a verified model of the order and cruise-manifest backend

This project models the core logic of the "pedidos" Django backend of an
audio-guide rental business. The model is written in Dafny.

The backend stores four kinds of things:
- orders (`Pedido`), each with an append-only event log;
- companies (`Empresa`);
- users, whose company is a free-text name;
- rows of daily cruise manifests (`PedidoCrucero`): one row per coach (`sign`) of a ship on a service date.

The model covers the logic underneath the framework:

- **Bulk manifest upload** (`CruceroBulkView.post`, module `CruiseBulk`).
  - Batch metadata is merged into every row, and every row is stamped with one printing time.
  - The whole list is validated; one bad row refuses the request.
  - Rows are grouped by (service date, ship) in first-appearance order.
  - A preliminary group is blocked when its ship-day already holds a final row. Any other group replaces every stored row of its ship-day.
  - When the metadata names a company, one order is derived from each replaced row. Its notes are built from labelled pieces, and empty pieces are dropped.
  - The orders table's text columns have fixed widths (`Models.FitsColumns`), which the PostgreSQL database enforces. A derived order whose status or excursion is longer than its column makes the insert, and so the whole request, fail.
  - The response counters are created, overwritten, blocked, blocked_groups and created_pedidos.
  - The request is one transaction. The handler `Post` changes the `Database` object in a single step or not at all. The step is the one the function `PostSpec` describes.
- **The `ordering` parameter of the manifest listing** (`CruceroBulkView.get`, module `CruiseOrdering`).
  - Values are either bracketed lists or comma-separated lists.
  - Pieces are stripped, empty ones are dropped, and repeats are dropped keeping the first occurrence.
  - The default ordering is the fallback.
- **Operations-board filters** (`PedidoOpsViewSet.get_queryset`, module `OpsQueries`). Non-staff users see only their own orders. The status and service-type parameters are comma-separated sets. The start-date bounds are inclusive. The module also models the company list (`EmpresaViewSet`) and the profile's company id (`me_view`), because they reuse the company lookup.
- **Write-side serializers** (module `Serializers`):
  - company resolution and string stripping for `PedidoSerializer.create`;
  - the end-date check, service-type aliases and `emisores` clean-up of `PedidoOpsWriteSerializer.validate`;
  - the date field that accepts a date-time;
  - field validation of one manifest row;
  - the keyed upsert on (service_date, ship, sign), with its final-versus-preliminary guard.
- **The order event log** (class `Models.Pedido`): the `created` seed on first save, `_log_update`, `set_delivered` and `set_collected`.
- **Data migration 0007** (module `Dedupe`). For every (service_date, ship, sign) held by several rows, it keeps one row and deletes the rest. The kept row is final first, then has the latest printing date, then the highest id.

Framework behaviour is modelled in these terms:
- Tables are sequences of records.
- Database row ids come from per-table counters.
- Python's `str.strip`, `split`, `join`, `lower` and `dict.fromkeys` are modelled in `Text` and `Seqs`.
- The inputs the code takes from the outside world are parameters of the operations:
  - the current time and its ISO text;
  - the JSON and Python-literal parsers of bracketed ordering values;
  - the date, date-time and time parsers.

Files:
- `wrappers.dfy`: Option and Result.
- `text.dfy`: the string operations.
- `seqs.dfy`: order-preserving de-duplication.
- `models.dfy`: the entities, `Pedido` and `Database`.
- `values.dfy`: request values and truthiness.
- `serializers.dfy`
- `ops_queries.dfy`
- `cruise_ordering.dfy`
- `cruise_bulk.dfy`
- `dedupe.dfy`

## Model

| member | source | states |
|---|---|---|
| Seqs.DedupKeepsFirstOrder | backend/pedidos/views.py:108 | `dict.fromkeys` keeps each field once, and the kept fields are in the order of their first occurrences |
| Text.CleanPiecesMembers | backend/pedidos/views.py:105 | a value survives `[p.strip() for p in parts if p.strip()]` exactly when it is the non-empty stripped form of some piece |
| Models.NewLogEntry | backend/pedidos/models.py:64-75 | the entry carries the given ts and event; `user_id`/`user` are present exactly when a user is given, and then hold the user's pk and username, or the email when the username is empty; `note` is present exactly when a non-empty note is given |
| Models.Pedido.constructor | backend/pedidos/models.py:45-46 | a new order has status "pendiente_pago", service type "mediodia", no primary key and an empty log |
| Models.Pedido.LogUpdate | backend/pedidos/models.py:64-75 | the log grows by exactly one entry, and the old log is a prefix of the new one |
| Models.Pedido.SetDelivered | backend/pedidos/models.py:78-82 | the status becomes "entregado" and exactly one "delivered" entry is appended |
| Models.Pedido.SetCollected | backend/pedidos/models.py:84-88 | the status becomes "recogido" and exactly one "collected" entry is appended |
| Models.Pedido.Save | backend/pedidos/models.py:91-95 | a new order with an empty log gets the log [created] and a primary key; any other log is kept as it was |
| Models.DeliverThenCollect | backend/pedidos/models.py:78-88 | delivering and then collecting leaves "recogido" and a log ending in [delivered, collected]; the primary key is unchanged |
| Models.CreateAndSave | backend/pedidos/models.py:91-95 | a freshly created and saved order has the default status and service type and the log exactly [created] |
| Serializers.CutAtT | backend/pedidos/serializers.py:52-55 | the result is the prefix of the input before its first "T", or the whole input when there is no "T" |
| Serializers.CutAtTIsFirstPiece | backend/pedidos/serializers.py:54 | the cut is the first piece of `value.split("T")` |
| Serializers.DateFieldValue | backend/pedidos/serializers.py:52-55 | a string is read as the date its text before the first "T" parses to; a date object passes unchanged; null and every other value are refused |
| Serializers.DateTimeStringDate | backend/pedidos/serializers.py:52-55 | a date-time string `d + "T" + t` reads as the same date as the bare date `d`: the time of day is ignored |
| Serializers.AliasTargetsAreChoices | backend/pedidos/serializers.py:202-211 | every alias target is a key of TIPO_CHOICES, and the table maps a target to itself or does not list it |
| Serializers.NormalizeTipoChoices | backend/pedidos/serializers.py:198-212 | a listed spelling (after stripping) normalises to a service-type choice; any other value is only stripped |
| Serializers.NormalizeTipoIdempotent | backend/pedidos/serializers.py:198-212 | normalising the service type twice gives the same result as normalising it once |
| Serializers.NormalizeChoice | backend/pedidos/serializers.py:202-212 | each of the four service-type choices normalises to itself |
| Serializers.StripStrings | backend/pedidos/serializers.py:104-106 | the keys are unchanged; the string value of each listed key is stripped; every other value passes through |
| Serializers.CompaniesNamed | backend/pedidos/serializers.py:98 | exactly the stored companies whose name equals the given name |
| Serializers.ResolveCompanyOutcomes | backend/pedidos/serializers.py:91-101 | staff are refused; an empty stripped profile name is refused; a name no company has is refused; a resolved company is the only stored company with that name, and a company is resolved exactly when one company has the name |
| Serializers.AssignOwner | backend/pedidos/serializers.py:89-101 | the requester becomes `user`; a truthy `empresa` is kept; otherwise the resolved company is used, or the resolution's error is returned; the other fields are untouched |
| Serializers.CreatePedido | backend/pedidos/serializers.py:84-106 | an unauthenticated requester is refused; otherwise the owner fields are as in AssignOwner and every other field is stripped if listed and passed through if not |
| Serializers.ValidateOpsWrite | backend/pedidos/serializers.py:191-223 | the request is refused exactly when both dates are present and the end is before the start; otherwise the keys are kept and each value is normalised (service type), emptied to None (`emisores`) or stripped |
| Serializers.NormalizeOpsFields | backend/pedidos/serializers.py:197-216 | only `tipo_servicio` and `emisores` change, each to its cleaned value |
| Serializers.SameDayAccepted | backend/pedidos/serializers.py:192-195 | an end date equal to the start date is accepted |
| Serializers.OpsDateFields | backend/pedidos/serializers.py:158-159 | the write succeeds on the date fields exactly when `fecha_inicio` is present and reads as a date and `fecha_fin` is missing, null or reads as a date; the keys are kept, the dates are replaced by what they read as, a null end stays null and every other value is unchanged |
| Serializers.OpsWrite | backend/pedidos/serializers.py:158-223 | a date field that does not read as a date refuses the write; otherwise it is refused exactly when the end is before the start, and each value of the result is the cleaned value of the date-read payload |
| Serializers.OpsSameDayDateTime | backend/pedidos/serializers.py:158-195 | a start given as a date-time and an end given as the bare date of the same day are accepted |
| Serializers.CharValue | backend/pedidos/serializers.py:229-241 | a string is accepted exactly when its stripped text is non-blank (or the field allows blank), within the maximum length and free of NUL characters, and the value is that stripped text; an integer is accepted exactly when its decimal text fits, as that text; every other value is refused |
| Serializers.RequiredChar | backend/pedidos/serializers.py:229-236 | a required field is present, non-blank, stripped and within length; a missing, empty or null one is refused |
| Serializers.BlankRefused | backend/pedidos/serializers.py:229-236 | a required text field holding only whitespace is refused as blank |
| Serializers.OptionalChar | backend/pedidos/serializers.py:237-241 | an optional field is stripped and within length; a missing one takes the model default "" (used when a row is inserted) |
| Serializers.IntegerValue | backend/pedidos/models.py:107 | an integer is accepted as itself; a string longer than 1000 characters is refused; only integers and strings are ever accepted |
| Serializers.StripDecimal | backend/pedidos/models.py:107 | a string with no dot is unchanged; a changed string lost exactly its last dot and what follows it, which is zeros and then whitespace |
| Serializers.IntegerTextAccepted | backend/pedidos/models.py:107 | the decimal text of an integer is accepted as that integer |
| Serializers.IntegerZeroFractionAccepted | backend/pedidos/models.py:107 | the text of an integer followed by ".0" is accepted as that integer |
| Serializers.IntegerFractionRefused | backend/pedidos/models.py:107 | the text of an integer followed by ".5" is refused |
| Serializers.PaxValue | backend/pedidos/models.py:107 | `pax` is accepted exactly when it is present and reads as an integer in 0..2147483647, as that integer |
| Serializers.ArrivalValue | backend/pedidos/models.py:108 | a missing or null arrival time is accepted as none; a string is accepted exactly when the time parser accepts it, as the parsed time |
| Serializers.ServiceDateValue | backend/pedidos/models.py:101 | a missing, null or empty service date is refused; a date object is accepted as itself; a non-empty string is what the date parser makes of it; nothing else is accepted |
| Serializers.ValidateCruiseRow | backend/pedidos/serializers.py:265-268 | an accepted row has a service date and a non-empty ship, and its text fields are stripped; a row whose service date or ship is missing, null or empty is refused; a missing optional field takes its model default ("" or no arrival time) |
| Serializers.CruiseRowAcceptance | backend/pedidos/serializers.py:229-268 | for a payload whose text fields are strings, a row is accepted exactly when every field is acceptable (required text non-blank and within length, optional text within length, no text with a NUL character, a readable service date, `pax` in range, a readable or absent arrival time), and each kept text field is the stripped input |
| Serializers.GivenOptional | backend/pedidos/serializers.py:237-241 | the optional fields given are exactly those of `emergency_contact`, `language`, `arrival_time` and `terminal` present in the payload |
| Serializers.OverwriteAllGiven | backend/pedidos/serializers.py:257-258 | when the payload gives every optional field, the overwritten fields are exactly the validated ones |
| Serializers.LatestWithKey | backend/pedidos/serializers.py:251 | a stored row with the (service_date, ship, sign) key that no other row with the key comes before under `-updated_at, -uploaded_at`; none exactly when no row has the key |
| Serializers.LatestUnique | backend/pedidos/models.py:120 | with distinct primary keys, at most one row with the key has no other row with the key before it |
| Serializers.FindLatest | backend/pedidos/serializers.py:251 | one scan of the table finds the row `LatestWithKey` describes |
| Serializers.UpsertRefusal | backend/pedidos/serializers.py:251-256 | the upsert is refused exactly when the latest stored row with the key is "final" and the incoming status is "preliminary" |
| Serializers.UpsertOverwrites | backend/pedidos/serializers.py:257-261 | over an existing row, the table keeps its size and key count, and only the latest row with the key changes: its required fields take the new values, each optional field the new value only when the payload gave it and its old value otherwise; its id, printing date and upload time stay and its update time is now |
| Serializers.UpsertInserts | backend/pedidos/serializers.py:263 | with no stored row for the key, exactly one row is appended with the next id, stamped now, and it is then the only row with the key |
| Serializers.UpsertBySign | backend/pedidos/serializers.py:243-263 | the table afterwards is the one the upsert describes; a refusal leaves the table and the id counter unchanged; primary keys stay distinct |
| OpsQueries.ParamParts | backend/pedidos/views.py:303-307 | the parts of a comma-separated parameter are non-empty and stripped |
| OpsQueries.ParamPartsMembers | backend/pedidos/views.py:303-314 | a value is in the set exactly when it is the non-empty stripped form of a comma-separated piece of the parameter |
| OpsQueries.OpsQuerysetMembers | backend/pedidos/views.py:294-329 | an order is listed exactly when it is stored, belongs to the user unless they are staff, has its status and service type in the given sets (when given), and starts within the given bounds |
| OpsQueries.OpsBoundsInclusive | backend/pedidos/views.py:320-327 | an order starting exactly on both bound dates is listed: both bounds are inclusive |
| OpsQueries.VisibleCompanies | backend/pedidos/views.py:276-282 | staff see every company; anyone else sees exactly the companies named as the stripped profile name, and none when that name is blank |
| OpsQueries.LowestId | backend/pedidos/views.py:409 | the result is the id of one of the companies and no larger than any of their ids; none exactly for no companies |
| OpsQueries.ProfileCompanyId | backend/pedidos/views.py:404-409 | none exactly when the stripped profile name is blank or no company has it; otherwise the lowest id among the companies with that name |
| OpsQueries.ResolvedCompanyIsVisible | backend/pedidos/views.py:404-409 | the company an order resolves to is among those the user may list, and is the company id the profile endpoint reports |
| CruiseOrdering.ItemFields | backend/pedidos/views.py:96-105 | a value's fields are non-empty and stripped; the value fails exactly when it starts with "[" and neither parser accepts it |
| CruiseOrdering.CollectedFields | backend/pedidos/views.py:95-105 | all collected fields are non-empty and stripped |
| CruiseOrdering.Ordering | backend/pedidos/views.py:94-119 | a successful ordering is never empty, has only non-empty stripped fields, and repeats no field |
| CruiseOrdering.ParseOrdering | backend/pedidos/views.py:94-119 | the parsing loop computes exactly `Ordering` |
| CruiseOrdering.CollectFields | backend/pedidos/views.py:95-105 | the loop over the values computes `CollectedFields` and stops at the first unparsable value |
| CruiseOrdering.DropRepeats | backend/pedidos/views.py:108 | the de-duplication loop computes the first-occurrence de-duplication |
| CruiseOrdering.CollectedErrPersists | backend/pedidos/views.py:98-101 | once a value fails to parse, the whole parameter fails with that error |
| CruiseOrdering.PlainFieldsMembers | backend/pedidos/views.py:105 | with comma-separated values only, a field is collected exactly when it is the non-empty stripped form of a piece of some value |
| CruiseOrdering.OrderingKeepsFirstOccurrences | backend/pedidos/views.py:107-112 | the ordering holds exactly the collected fields, each once, in the order of their first occurrences |
| CruiseOrdering.OrderingFallsBack | backend/pedidos/views.py:116-119 | no value, or values that contribute no field, give ["-updated_at", "-uploaded_at"] |
| CruiseBulk.MergedRow | backend/pedidos/views.py:142-149 | each of the six common keys takes the metadata value when that is not None or ""; otherwise it keeps the row's value; every other key keeps the row's value; the printing date is the request's time |
| CruiseBulk.Normalise | backend/pedidos/views.py:132-154 | every row handed to the serializer carries the request's printing time |
| CruiseBulk.MergeRow | backend/pedidos/views.py:143-148 | the loop over the common keys computes exactly the merged row |
| CruiseBulk.NormalisePayload | backend/pedidos/views.py:132-154 | the normalisation loop computes exactly `Normalise` |
| CruiseBulk.OnePrintingTime | backend/pedidos/views.py:129-154 | every two rows carry the same printing date, the request's time |
| CruiseBulk.ValidateAll | backend/pedidos/views.py:157-159 | the list is accepted exactly when every row is, and then each validated row is its raw row's validation |
| CruiseBulk.GroupOrder | backend/pedidos/views.py:166-168 | the group keys appear once each, and are exactly the keys of the rows |
| CruiseBulk.RowsOf | backend/pedidos/views.py:166-168 | every row of a group has the group's key |
| CruiseBulk.GroupRows | backend/pedidos/views.py:166-168 | the `setdefault(...).append` loop yields the keys in first-appearance order and, for each key, its rows in payload order |
| CruiseBulk.GroupHead | backend/pedidos/views.py:172 | a group's first row, the one whose status decides, is the first payload row with that key |
| CruiseBulk.EveryRowInItsGroup | backend/pedidos/views.py:166-168 | every validated row lies in the group of its key, and that group is listed |
| CruiseBulk.GroupSizesSum | backend/pedidos/views.py:166-168 | the group sizes add up to the number of validated rows: the groups partition them |
| CruiseBulk.Select | backend/pedidos/views.py:173 | a row is selected exactly when it is stored and of that ship-day |
| CruiseBulk.RemoveGroup | backend/pedidos/views.py:182 | a row remains after the delete exactly when it is stored and of another ship-day |
| CruiseBulk.NewRows | backend/pedidos/views.py:184 | one inserted row per group row, with its fields, a fresh consecutive id and the request's time |
| CruiseBulk.EstadoPedido | backend/pedidos/views.py:190 | a falsy `estado_pedido` gives "pagado"; a non-empty string is taken as it is |
| CruiseBulk.DeriveFrom | backend/pedidos/views.py:188-190 | no orders are derived exactly when `meta["empresa"]` is falsy; the positive integer id of a stored company derives orders for that company, with the status from `estado_pedido` and the requester as user; every other truthy value fails the request as an unknown company |
| CruiseBulk.KeptPieces | backend/pedidos/views.py:206-215 | exactly the pieces that are non-empty and do not end in ": " are kept |
| CruiseBulk.NotePieceKept | backend/pedidos/views.py:214 | a "Label: value" piece is dropped exactly when its value is empty or itself ends in ": " |
| CruiseBulk.TrimmedPieceKept | backend/pedidos/views.py:207-214 | for a stripped value, a piece is dropped exactly when the value is empty |
| CruiseBulk.DerivedOrders | backend/pedidos/views.py:192-217 | one derived order per group row |
| CruiseBulk.DerivedOrdersFit | backend/pedidos/models.py:28-53 | the database accepts a group's derived orders exactly when the group is empty or the status has at most 20 characters and every row's excursion at most 150 and sign at most 100 |
| CruiseBulk.DerivedOrderFields | backend/pedidos/views.py:193-217 | each derived order has: the derivation's company, user and status; service type "crucero"; the ship-day's date as start and no end date; the row's pax, sign and excursion; the labelled notes; an empty log |
| CruiseBulk.NotesShipPiece | backend/pedidos/views.py:208 | the "Barco" piece is in the notes exactly when the ship name is non-empty |
| CruiseBulk.NotesLanguagePiece | backend/pedidos/views.py:209 | the "Idioma" piece is in the notes exactly when the row's language is non-empty |
| CruiseBulk.BuildOrders | backend/pedidos/views.py:192-217 | the loop builds exactly the derived orders of the group |
| CruiseBulk.ApplyOne | backend/pedidos/views.py:171-221 | one pass of the group loop computes exactly `ApplyGroup`: the block, or the delete, insert and derived orders, failing on an unusable company or on an order text longer than its column |
| CruiseBulk.AddDerivedOrders | backend/pedidos/views.py:187-221 | with no company, nothing changes; when an order's status or excursion (or bono) is longer than its column, the insert fails; otherwise the group's derived orders are appended with consecutive fresh ids and counted in created_pedidos |
| CruiseBulk.RunGroups | backend/pedidos/views.py:170-221 | the loop over the groups in first-appearance order computes exactly `Run`, stopping at the first failure |
| CruiseBulk.Handle | backend/pedidos/views.py:125-232 | on a copy of the tables, the handler computes exactly `PostSpec` (including its failures on an unusable company or an over-long order text), and primary keys stay distinct |
| CruiseBulk.Post | backend/pedidos/views.py:125-232 | a failing request, whether refused by validation, by its company or by an over-long order text, leaves all tables as they were; a successful one leaves the tables and counters `PostSpec` describes; primary keys stay distinct |
| CruiseBulk.Commit | backend/pedidos/views.py:170-221 | the end of the transaction: a failure writes nothing back and a success writes the new tables back, with primary keys still valid |
| CruiseBulk.BlockedGroupUnchanged | backend/pedidos/views.py:172-179 | a blocked group leaves the tables unchanged, adds its size to blocked and appends its (date, ship) to blocked_groups |
| CruiseBulk.SelectAfterReplace | backend/pedidos/views.py:181-185 | after the delete and the insert, the group's ship-day holds exactly the inserted rows, and every other ship-day its old rows |
| CruiseBulk.ApplyGroupOk | backend/pedidos/views.py:171-221 | a group goes through exactly when it is blocked, or its derivation is usable and its orders fit their columns; otherwise it fails with the derivation's error or as too long |
| CruiseBulk.ReplacedGroup | backend/pedidos/views.py:181-185 | an unblocked group leaves its ship-day holding exactly the group's rows and every other ship-day untouched; overwritten grows by the replaced count and created by the group size; blocked is unchanged |
| CruiseBulk.GroupOrders | backend/pedidos/views.py:187-221 | orders are appended, one per row and counted in created_pedidos, only for an unblocked group with a company; otherwise the orders table and the counter are unchanged |
| CruiseBulk.RunCounts | backend/pedidos/views.py:170-185 | over the groups, created + blocked equals the total size of the groups |
| CruiseBulk.PostCounts | backend/pedidos/views.py:161-185 | a successful upload has created + blocked equal to the number of rows |
| CruiseBulk.RunSucceeds | backend/pedidos/views.py:170-221 | the batch goes through exactly when every group is either blocked against the table as it stood before the request, or has a usable company (or none) and derived orders that fit their columns: blocking never fails the request |
| CruiseBulk.RunKeyOutcome | backend/pedidos/views.py:170-185 | for each ship-day: listed as blocked exactly when its group was refused against the table as it stood before the request, and then its rows are unchanged; otherwise its stored rows are exactly the group's rows; a ship-day outside the batch is untouched and not listed |
| CruiseBulk.ApplyGroupValid | backend/pedidos/views.py:181-221 | a group keeps manifest and order ids distinct and below the next id |
| CruiseBulk.RunValid | backend/pedidos/views.py:170-221 | the whole batch keeps manifest and order ids distinct and below the next id |
| Dedupe.Best | backend/pedidos/migrations/0007_dedupe_before_unique.py:24-33 | the kept row belongs to the group, and no row of the group sorts before it under (final first, latest printing date, highest id) |
| Dedupe.BestPrefersFinal | backend/pedidos/migrations/0007_dedupe_before_unique.py:25-31 | the kept row is final whenever its group holds a final row |
| Dedupe.BestIsLatest | backend/pedidos/migrations/0007_dedupe_before_unique.py:31-33 | among rows of equal finality, the kept row has the latest printing date, and the highest id among those with that date |
| Dedupe.SelectSign | backend/pedidos/migrations/0007_dedupe_before_unique.py:17-23 | the rows of one key are stored rows with that key, as many as the key's count |
| Dedupe.DupKeys | backend/pedidos/migrations/0007_dedupe_before_unique.py:9-14 | each key held by more than one row is listed, and listed once |
| Dedupe.PruneStep | backend/pedidos/migrations/0007_dedupe_before_unique.py:33-34 | deleting all rows of a key but the kept one is processing that key |
| Dedupe.DedupStep | backend/pedidos/migrations/0007_dedupe_before_unique.py:16-34 | in each pass, the next duplicated key still has all its original rows, and the delete processes it |
| Dedupe.KeptRowsOfKey | backend/pedidos/migrations/0007_dedupe_before_unique.py:9-34 | a duplicated key is left with exactly its best row, and every other key keeps its rows unchanged |
| Dedupe.OneRowPerKey | backend/pedidos/migrations/0007_dedupe_before_unique.py:9-34 | afterwards every key of the table has exactly one row |
| Dedupe.DedupSubsetSameKeys | backend/pedidos/migrations/0007_dedupe_before_unique.py:33-34 | the migration only deletes rows and leaves the same set of keys |
| Dedupe.DedupValid | backend/pedidos/migrations/0007_dedupe_before_unique.py:33-34 | deleting rows keeps primary keys distinct and below the next id |
| Dedupe.PruneDuplicates | backend/pedidos/migrations/0007_dedupe_before_unique.py:16-34 | the loop over the duplicated keys leaves exactly the deduplicated table |
| Dedupe.Deduplicate | backend/pedidos/migrations/0007_dedupe_before_unique.py:5-34 | the manifest table becomes the deduplicated table, and primary keys stay valid |

## Left out

- URL routing, the JWT/e-mail authentication serializers, swagger decorators, logging, `_add_feedback`, the middleware and the admin: these are framework wiring and response plumbing with no table logic.
- `PedidoViewSet`, `MisPedidosView` and `BulkPedidos` are left out. They list a user's own orders or call `PedidoSerializer` once per row, and `PedidoSerializer.create` is modelled (`Serializers.CreatePedido`).
- `ReminderViewSet` and `ReminderSerializer` are left out. The `Reminder` model is not defined in `backend/pedidos/models.py`, the two files disagree on the done-field name (`is_done` versus `done`), `Q` is not imported at `backend/pedidos/views.py:371`, and `timezone` is not imported at `backend/pedidos/serializers.py:277-280`.
- Migrations 0009 (both), 0012 and 0013 are left out: they are schema changes and raw SQL.
- Query-set order is not modelled, except where `.first()` picks one row (`Serializers.LatestWithKey`, `OpsQueries.ProfileCompanyId`). Filters keep the table order of the stored sequence; the company list's `order_by("nombre")` is not applied. The listing's `order_by(...)` with the parsed fields, and its fallback when the ORM rejects a field name (`backend/pedidos/views.py:111-115`), depend on ORM behaviour.
- Foreign parsers are function-typed parameters: `json.loads`/`ast.literal_eval` of bracketed ordering values, `_parse_dt` (`datetime.fromisoformat`), and DRF's date and time parsers. A literal that neither parser accepts is modelled as an error result (`CruiseOrdering.UnparsableOrdering`). In Python it raises.
- `timezone.now()` and its ISO formatting are parameters (`now`, `ts`, `printed`).
- Text handling covers ASCII only. `strip` and `int()` are modelled for the ASCII characters `str.strip()` removes (space, tab, line feed, carriage return, vertical tab, form feed and 0x1C-0x1F), and `lower` for ASCII letters, not for the full Unicode repertoire.
- CruiseBulk.DeriveFrom: a company id given as a numeric string or as `true` (which Django reads as company 1), or an id of no stored company, is modelled as a failed request (`UnknownCompany`). Django would coerce a numeric string, and a missing company makes the insert, and so the transaction, fail.
- CruiseBulk.EstadoPedido: only string and integer values of `estado_pedido` are turned into text; any other truthy value falls back to "pagado" instead of its `str()`.
- Derived orders are inserted with `bulk_create`, which does not run `save`. The model therefore gives them an empty log with no `created` entry.
- Fresh primary keys are consecutive counter values; the database's own sequence is not modelled.
- Models.Pedido.SetDelivered: it does not model the `entregado` attribute, nor the failure of `save(update_fields=...)`, which names fields the model does not have (`backend/pedidos/models.py:82`). The helper is modelled as intended: status and log change.
- Models.Pedido.SetCollected: the same, for `recogido` and `backend/pedidos/models.py:88`.
- The `delivered` action calls `set_delivered` with `delivered_pax`/`override_pax` arguments it does not accept (`backend/pedidos/views.py:336`). The action is left out; its effect is `Models.Pedido.SetDelivered`.
- The first `save` at `backend/pedidos/models.py:58-61` is shadowed by the later definition at lines 91-95 and is not modelled.
- `Empresa.objects.get` raises `MultipleObjectsReturned` when two companies share a name, because names are not unique. This is modelled as the error result `AmbiguousCompany`. In Django it is an unhandled server error.
- CruiseBulk.NewRows, Serializers.UpsertInserts: as written, `printing_date` is a `DateField` with no default that is not nullable (`backend/pedidos/models.py:98`), and it is read-only in the manifest serializer (`backend/pedidos/serializers.py:231`). So the validated rows never carry it, and `PedidoCrucero(**r)` (`backend/pedidos/views.py:184`) and `objects.create(**validated)` (`backend/pedidos/serializers.py:263`) would insert NULL into a NOT NULL column. A default exists only in migration 0012. The model follows the intended server stamp of `backend/pedidos/views.py:148` and stores the request's time as the inserted rows' printing date.
- Serializers.LatestWithKey: rows tied on both `updated_at` and `uploaded_at` come back in an order the database chooses; the model breaks that tie by the larger id.
- Serializers.IntegerValue: floating-point JSON numbers, underscore digit separators (`int("1_000")`) and non-ASCII digits, which Python's `int()` accepts, are not modelled; the payload has no floating-point values and such strings are refused.
- Serializers.OpsWrite: only the two date fields are read from the payload. The other declared fields of the ops write serializer (`empresa`, `pax`, `emisores`, the text fields) are taken as the framework delivers them.
- A request whose `meta` or rows are not dictionaries is not modelled; the payload is typed (`CruiseBulk.Payload`).
