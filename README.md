# Parcel store model

A Dafny model of `ParcelStore` (parcel.go), the data-access object of the
parcel tracker. Each operation of the store issues one SQL statement against
the `parcel` table. The model keeps that table as a finite map from the
primary key `number` to a row of `client`, `status`, `address` and
`created_at`, together with `nextNumber`, the number the engine issues on the
next INSERT. Every operation is stated as the effect of its statement on that
map.

- `parcel.dfy`, module `Parcels`: the `Parcel` record, the statuses
  `registered` and `sent`, the errors, and what an INSERT writes and a SELECT
  scans. The Go definitions of `Parcel` and the status constants are in a
  file that is not part of this model. Here they are a record with Number,
  Client, Status, Address and CreatedAt, and two distinct string constants.
- `table.dfy`, module `ParcelTable`: the effect of each statement as a
  function on the table. Each function's contract states its guard and its
  frame: which row and field change, and that nothing else does.
- `history.dfy`, module `ParcelHistory`: sequences of requests, and what holds
  across them.
- `store.dfy`, module `Store`: the class `ParcelStore` with the six
  operations. Engine errors are parameters of each operation (`fails`, or a
  `CursorFault` for the client query).

The code does not do what the repository's tests expect. `Get` and
`GetByClient` do not select the `client` column (parcel.go:29 and
parcel.go:41). Their `Scan` calls (parcel.go:33 and
parcel.go:51) never fill in Client, so every parcel they return has Client 0,
Go's zero value. The tests at parcel_test.go:42 and parcel_test.go:132 compare
whole structs, Client included. The model follows the code.
`ParcelTable.ClientNotReadBack` states the mismatch for `Get`, and
`ParcelTable.InsertThenByClient` states it for `GetByClient`.

Guarded and missing rows are silent no-ops. `SetStatus` on a missing number,
and `SetAddress` or `Delete` on a missing or non-registered parcel, leave the
table as it was and return no error.

## Model

| member | source | states |
|---|---|---|
| ParcelTable.Insert | parcel.go:15-17 | The new table has the old keys plus the new one. The new row holds the input's client, status, address and creation time. Every existing row is unchanged. |
| ParcelTable.UpdateStatus | parcel.go:62-66 | On an existing number, only the status changes, to the given value whatever it was before. Other fields and rows stay the same. On a missing number the table is unchanged. |
| ParcelTable.UpdateAddress | parcel.go:68-72 | The address changes only on a registered parcel. Status, client and creation time never change, and neither does any other row. A missing or non-registered parcel leaves the table as it was. |
| ParcelTable.DeleteRegistered | parcel.go:74-78 | The row is removed exactly when it exists and is registered. Every remaining row is unchanged. |
| ParcelTable.InsertThenLookup | parcel.go:15-37 | Get after Add succeeds. It returns the input with the generated Number and with Client 0. |
| ParcelTable.ClientNotReadBack | parcel_test.go:39-42 | When the input's Client is nonzero, Get after Add does not equal the input with its new Number, which is what the test compares against. |
| ParcelTable.InsertThenByClient | parcel_test.go:123-133 | After Add, the client query selects the new row exactly when its client matches. The row reads back with the generated Number, the input's status, address and creation time, and Client 0. For a nonzero client, the input with its new Number, which the test compares against, is not among the results. |
| ParcelTable.DeleteThenLookup | parcel_test.go:44-48 | After a registered parcel is deleted, Get fails with "no rows" and returns the zero Parcel. |
| ParcelTable.GuardedOutIsNoOp | parcel.go:68-78 | On a parcel that is not registered, Delete and SetAddress leave the table unchanged, and Get reads back the same parcel. |
| ParcelTable.UpdateStatusThenLookup | parcel_test.go:83-89 | Get after SetStatus succeeds and returns the new status. Number, address and creation time read back unchanged, with Client 0. |
| ParcelTable.MissingNumberIsNoOp | parcel.go:62-78 | On a missing number, SetStatus, SetAddress and Delete leave the table unchanged, and Get fails with "no rows". |
| ParcelTable.ByClientSize | parcel.go:40-60 | The set of parcels the client query reads back has exactly one parcel per matching row. |
| ParcelHistory.Run | parcel.go:15-78 | Any sequence of requests keeps every stored number below the next one to be issued. The counter never goes back. |
| ParcelHistory.NumbersNeverReused | parcel.go:15-26 | A number that was issued and then deleted is never stored again, whatever requests follow. |
| ParcelHistory.FrozenOutsideRegistered | parcel.go:68-78 | Once a parcel has left `registered`, any requests that do not set its status leave its row exactly as it was. |
| ParcelHistory.AddressStatusDeleteScenario | parcel.go:15-78 | Add a registered parcel, change its address, set it to `sent`, then delete it. The delete does nothing, and Get returns the parcel with status `sent` and the new address. |
| Store.ParcelStore.constructor | parcel.go:11-13 | The store wraps the existing table and counter, and its invariant holds. |
| Store.ParcelStore.Add | parcel.go:15-26 | On success, returns a nonzero number that was not a key, and inserts the input's fields under it, ignoring its Number. An INSERT error leaves the table unchanged and returns (0, error). A `LastInsertId` error keeps the inserted row and returns (0, error). Whenever the INSERT succeeds, the new state is `ParcelHistory.Step` of the old one. |
| Store.ParcelStore.Get | parcel.go:28-38 | Succeeds exactly when the engine does not fail and the number exists. It then returns that number with the row's status, address and creation time, and Client 0. A missing number gives "no rows". Every error comes with the zero Parcel. |
| Store.ParcelStore.GetByClient | parcel.go:40-60 | Returns an error exactly when a query, scan or iteration fault occurs among the matching rows, and then no parcels at all. Otherwise returns exactly the matching rows as parcels, each once, with the list length equal to the number of matches. The order is left unspecified. |
| Store.ParcelStore.SetStatus | parcel.go:62-66 | Without an engine error, the table becomes `UpdateStatus` of the old one, the new state is `ParcelHistory.Step` of the old one, and no error is returned. With one, the table is unchanged and the error is returned. |
| Store.ParcelStore.SetAddress | parcel.go:68-72 | Without an engine error, the table becomes `UpdateAddress` of the old one, the new state is `ParcelHistory.Step` of the old one, and no error is returned, even when the guard matches no row. With one, the table is unchanged. |
| Store.ParcelStore.Delete | parcel.go:74-78 | Without an engine error, the table becomes `DeleteRegistered` of the old one, the new state is `ParcelHistory.Step` of the old one, and no error is returned, even when the guard matches no row. With one, the table is unchanged. |

## Left out

- The `*sql.DB` handle, `Exec`/`Query`/`QueryRow`, `LastInsertId` and the SQL text are foreign library calls. Only their effect on the table is modelled, and engine errors are the `fails`, `execFails`, `idFails` and `CursorFault` parameters.
- An engine error is assumed to leave the table unchanged, because SQLite rolls back a failed statement. The kind and text of an engine error are not modelled.
- `defer rows.Close()` and the release of the cursor are not modelled. They are resource handling in the driver.
- The atomicity of the `WHERE`-clause guard under concurrent callers is not modelled. It is the engine's concurrency guarantee, and the model is sequential.
- Schema creation and connection pooling are not modelled. Neither is in the modelled code.
- Rowid allocation is simplified to a counter that only grows. It does not cover `AUTOINCREMENT` versus rowid reuse, or explicit keys.
- Store.ParcelStore.Add: Go's `int` and `int64`, and the conversion `int(id)` at parcel.go:25, are not modelled. Go's `int` is as wide as the platform's word, so that conversion truncates on 32-bit targets. The rowid limit of 2^63-1 is not modelled either. Numbers and client ids are unbounded integers.
- Store.ParcelStore.GetByClient: Go distinguishes a nil slice from an empty one, and the model does not. Both are the empty sequence.
- ParcelHistory.Run: only requests that execute without engine errors are sequenced. Engine errors are covered per operation in `Store`.
- The clock and random client ids in the tests are not modelled. CreatedAt is an opaque string, and client ids are parameters.
