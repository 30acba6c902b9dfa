# Soft-delete lifecycle of the catalog entities

This project models the soft-delete mechanism that every catalog entity
(restaurant, category, option, menu item and the two through-tables) inherits
from `AbstractSoftDeletableModel`, together with the `SoftDeleteQuerySet` and
`SoftDeleteManager` that back its managers. A record is soft-deleted by setting
its nullable `deleted_at` column; it is removed only by a hard delete.

The store of one entity is an immutable `map<Id, Row<P>>` (`Store.Table`). A
row holds `deletedAt: Option<Time>` and an opaque payload `P` standing for
every other column, so the model is generic over the six entities. A queryset
is a condition on a key and a row (`QuerySets.QuerySet`). It is evaluated
against the table at the moment it runs (`QuerySets.Eval`). Bulk operations
return the new table and the row count the database reports. Record
operations return a `Step`: the in-memory object afterwards, plus either the
new table or the exception raised. The object's `deleted_at` is assigned
before the save, so it changes even when the save raises. The clock
(`timezone.now()`) is an explicit `now` parameter. No ordering of instants is
assumed.

Modules:
- `Wrappers`: `Option` and `Result`.
- `Store`: rows, tables, and the live and dead key sets.
- `QuerySets`: the queryset side of `apps/abstracts/admin.py`.
- `Managers`: `SoftDeleteManager` from `apps/abstracts/admin.py`. A manager
  is typed by the entity it is attached to. The module also has
  `PlainManager`, the framework's unscoped manager, used for the finding below.
- `SoftDeletableModel`: the per-record side of `apps/abstracts/models.py` and
  its two managers.
- `Lifecycle`: the Live / Deleted / Destroyed state machine, with lemmas that
  link each operation to its transition and to what each view shows.

The record operations follow the framework behaviour that `save(update_fields=["deleted_at"])`
and `Model.delete()` have, but only as far as this mechanism can observe it:
- The save writes the one column of the row named by the object's primary key.
- The save goes through the unscoped base manager, so it also reaches a
  soft-deleted row. This is why `restore()` works at all.
- The save raises when the object has no primary key (`NoPrimaryKey`).
- The save also raises when no row was updated (`NoRowsAffected`).
- `Model.delete()` raises on an object with no primary key.
- Otherwise it removes the row, if there is one, and clears the object's key.

## Model

| member | source | states |
|---|---|---|
| QuerySets.Alive | apps/abstracts/admin.py:13-14 | `alive()` matches a row exactly when the input queryset matches it and its `deleted_at` is null |
| QuerySets.Dead | apps/abstracts/admin.py:16-17 | `dead()` matches a row exactly when the input queryset matches it and its `deleted_at` is set |
| QuerySets.AliveDeadPartition | apps/abstracts/admin.py:13-17 | on any table, `alive()` and `dead()` of a queryset yield disjoint rows whose union is the queryset's own result |
| QuerySets.Delete | apps/abstracts/admin.py:6-8 | bulk delete sets `deleted_at` to the single instant `now` on every matched row and keeps its payload; it removes no row, leaves unmatched rows untouched and reports the number of matched rows |
| QuerySets.Restore | apps/abstracts/admin.py:19-20 | bulk restore sets `deleted_at` to null on every matched row, keeps the payload, leaves the other rows alone and reports the matched count |
| QuerySets.HardDelete | apps/abstracts/admin.py:10-11 | bulk hard delete removes exactly the matched keys, leaves every other row unchanged and reports how many rows it removed |
| Managers.GetQueryset | apps/abstracts/admin.py:24-25 | the soft-delete manager's base queryset matches exactly the rows whose `deleted_at` is null; a plain manager matches every row |
| Managers.AllWithDeleted | apps/abstracts/admin.py:27-28 | `all_with_deleted()` matches every row, live or dead |
| Managers.DeletedOnly | apps/abstracts/admin.py:30-31 | `deleted_only()` matches exactly the rows whose `deleted_at` is set |
| Managers.DefaultViewIsLiveRows | apps/abstracts/admin.py:24-25 | the default view yields exactly the live rows, unchanged, and `dead()` on it is always empty |
| Managers.AllWithDeletedIsTable | apps/abstracts/admin.py:27-28 | `all_with_deleted()` yields the whole table |
| Managers.DeletedOnlyIsDifference | apps/abstracts/admin.py:24-31 | `deleted_only()` yields `all_with_deleted()` minus the default view, which is the set of soft-deleted keys |
| Managers.RestoreThroughDefaultIsNoOp | apps/abstracts/admin.py:19-25 | a bulk restore on any queryset built from the default view leaves the table unchanged |
| Managers.DeleteThroughDefaultKeepsDeadRows | apps/abstracts/admin.py:6-25 | a bulk delete built from the default view keeps the timestamps of soft-deleted rows; the live keys lose exactly the matched keys, and the live count drops by the reported count |
| Managers.DeleteThroughAllWithDeletedRestamps | apps/abstracts/admin.py:6-28 | a bulk delete built from `all_with_deleted()` overwrites the timestamp of every matched row, dead ones included, with `now` |
| Managers.PurgeDeletedOnly | apps/abstracts/admin.py:10-31 | hard-deleting `deleted_only()` leaves exactly the default view and reports the number of soft-deleted rows |
| Managers.DeleteThenRestore | apps/abstracts/admin.py:6-28 | a bulk delete of live rows, followed by a bulk restore of the same keys through `all_with_deleted()`, gives back the original table |
| SoftDeletableModel.Objects | apps/abstracts/models.py:18 | `objects` is a soft-delete manager whose `get_queryset()`, and hence `all()` and `filter()`, matches exactly the rows with a null `deleted_at` |
| SoftDeletableModel.AllObjects | apps/abstracts/models.py:20 | `all_objects` is also a soft-delete manager, so its `get_queryset()`, and hence `all()` and `filter()`, matches exactly the rows with a null `deleted_at` |
| SoftDeletableModel.Create | apps/abstracts/models.py:16 | a new record's object and stored row have a null `deleted_at`; the insert fails with a duplicate-key error exactly when the key is taken, and otherwise adds one row and changes no other |
| SoftDeletableModel.SaveDeletedAt | apps/abstracts/models.py:28 | saving with `update_fields=["deleted_at"]` writes only that column of the object's own row. It fails without a primary key, and it fails when no row has that key |
| SoftDeletableModel.SoftDelete | apps/abstracts/models.py:25-28 | `soft_delete()` sets the object's `deleted_at` to `now`; when the row exists it writes `now` into that row's `deleted_at`, keeps the payload and leaves every other row unchanged |
| SoftDeletableModel.Restore | apps/abstracts/models.py:30-33 | `restore()` sets the object's `deleted_at` to null and writes null into its row alone, with the same success condition as a soft delete |
| SoftDeletableModel.HardDelete | apps/abstracts/models.py:35-37 | `hard_delete()` removes the object's row and only that row, and clears the object's key; an object with no key raises and changes nothing |
| SoftDeletableModel.Delete | apps/abstracts/models.py:39-41 | the `delete` override has the effects of a soft delete whatever its arguments are, and never removes a row |
| SoftDeletableModel.AllObjectsHidesDeleted | apps/abstracts/models.py:18-20 | `all_objects.all()` yields exactly what `objects.all()` yields: the live rows |
| SoftDeletableModel.AllObjectsMissesDeletedRow | apps/abstracts/models.py:11-20 | a table holding one soft-deleted row, which `all_objects.all()` does not return |
| SoftDeletableModel.IntendedAllObjectsSeesEverything | apps/abstracts/models.py:11-20 | an unscoped `all_objects`, as documented, would return the whole table, the same rows as `all_with_deleted()` |
| Lifecycle.CreateStartsLive | apps/abstracts/models.py:16 | a record created under a free key is Live and visible through `objects`, and no other record changes state |
| Lifecycle.SoftDeleteTransition | apps/abstracts/models.py:25-28 | `soft_delete()` on a stored record moves it from Live or Deleted to Deleted at `now` and changes no other record's state; the record leaves `objects` and appears in `deleted_only()`, in `all_with_deleted()` and through an unscoped manager |
| Lifecycle.RestoreTransition | apps/abstracts/models.py:30-33 | `restore()` on a stored record makes it Live and visible through `objects`, and changes no other record's state |
| Lifecycle.RestoreIsIdempotentOnLive | apps/abstracts/models.py:30-33 | restoring a live record succeeds and leaves the table exactly as it was |
| Lifecycle.SoftDeleteThenRestore | apps/abstracts/models.py:25-33 | `soft_delete()` then `restore()` makes the record visible through `objects` with `deleted_at` null; for a record that was live, the table comes back exactly |
| Lifecycle.HardDeleteTransition | apps/abstracts/models.py:35-37 | `hard_delete()` makes the record Destroyed, absent from `objects`, `all_with_deleted()`, `deleted_only()` and an unscoped manager, and changes no other record's state |
| Lifecycle.DestroyedIsTerminal | apps/abstracts/models.py:25-41 | for another object that still holds the key of a row that is gone, soft delete, restore and the `delete` override all fail with no rows affected, and a further hard delete changes nothing |
| Lifecycle.HardDeletedObjectIsSpent | apps/abstracts/models.py:25-41 | the object `hard_delete()` was called on has its key cleared, so a following soft delete, restore, `delete` or hard delete on it fails for want of a primary key |
| Lifecycle.DeleteIsSoftDelete | apps/abstracts/models.py:39-41 | `delete(using, keep_parents)` equals `soft_delete()` for every value of its two arguments |
| Lifecycle.SoftDeleteCounts | apps/abstracts/models.py:25-33 | soft-deleting a live record lowers the `objects` count by one and leaves the `all_with_deleted()` count unchanged; restoring it brings the `objects` count back |
| Lifecycle.BulkDeleteStates | apps/abstracts/admin.py:6-8 | a bulk delete matching a set S of records, live or already deleted, moves each of S to Deleted at `now`; the dead keys gain exactly S, the live keys lose exactly S, and no other record changes state |
| Lifecycle.BulkDeleteViews | apps/abstracts/admin.py:6-31 | after that bulk delete, `deleted_only()` has gained exactly S, and `alive()` on `all_with_deleted()` is the old default view minus S |
| Lifecycle.BulkAgreesWithRecord | apps/abstracts/admin.py:6-20 | bulk delete and bulk restore on the queryset that selects one stored record write the same table as that record's `soft_delete()` and `restore()`, and report one row |

## Findings

| source | as written | input that shows it | evidently intended | confidence | as-written member | corrected member |
|---|---|---|---|---|---|---|
| apps/abstracts/models.py:20 | `all_objects` is a second `SoftDeleteManager`, so `all_objects.all()` filters out rows whose `deleted_at` is set | a table holding one row with `deleted_at` set: `all_objects.all()` returns nothing | the class docstring and the comment above the declaration say `all_objects.all()` returns all records, deleted ones included, i.e. an unscoped manager | high; not executed | SoftDeletableModel.AllObjectsMissesDeletedRow | SoftDeletableModel.IntendedAllObjectsSeesEverything |

`SoftDeletableModel.AllObjects` keeps the as-written behaviour, because that is
what the code does. The lifecycle lemmas read the unscoped view through
`all_with_deleted()` and through the corrected `IntendedAllObjects`.

## Left out

- Cascades: `on_delete` cascades that a hard delete triggers on dependent rows are not modelled. Both hard-delete members treat the table of one entity on its own.
- QuerySets.HardDelete: the framework's count also includes cascaded rows of other tables, and it comes with a per-model breakdown; the model's count is the number of rows removed from this table, which equals the framework's total when nothing cascades.
- SoftDeletableModel.HardDelete: the `(count, per-model)` result of the framework's `delete()` is dropped, as `hard_delete()` itself drops it.
- Signals, database routing (`using`), query laziness and SQL generation are not modelled. The `using` argument of the `delete` override is accepted and ignored, as in the code.
- The clock is a parameter. Nothing is assumed about its monotonicity.
- Primary-key allocation is a parameter of `SoftDeletableModel.Create`. The database sequence is not modelled.
- Concurrency: each operation is one atomic step on the table. Racing writers are not modelled.
- `SoftDeleteManager` subclasses the plain framework manager, so `alive()`, `dead()`, `restore()` and `hard_delete()` exist only on querysets, not on the manager itself. The model offers them only on querysets too. Calling them on a manager raises in the code, and that error is not modelled.
- SoftDeletableModel.Create: the uniqueness, NOT NULL and foreign-key constraints on the payload columns (unique slugs, unique through-table pairs, required foreign keys) are not modelled, so the model's insert fails only on a taken primary key; the real insert can also fail on a free key. A soft-deleted row still holds its unique slug, so re-creating it through `objects` (which cannot see the dead row) fails in the code while the model reports success.
- Lifecycle.CreateStartsLive: rests on `SoftDeletableModel.Create` and so shares its omission of payload constraints.
- Field validation and the column schemas of the entities are not modelled, nor are the `deleted_at` columns of `Address`, `Project`, `Task` and `UserTask`. Those four use plain model semantics without these managers.
- The administrative registrations, the test-data generation command and the settings loading are not part of this model.
- Managers.GetQueryset: only the filtering of `PlainManager` is modelled. Its querysets take the soft-delete meaning of bulk `delete()`, while a plain manager's queryset removes rows. No property applies a bulk operation to a plain manager's queryset.
