/**
 * The parcel record, its statuses and the error values of the store.
 *
 * `Parcel`, `ParcelStatusRegistered` and `ParcelStatusSent` are defined in a
 * file of the repository that is not part of this model; they are declared
 * here with the fields and constants that parcel.go uses. Only the fact that
 * the two statuses are distinct matters to the store.
 */
module Parcels {

  datatype Option<+T> = None | Some(value: T)

  /** Go's `error` as the store can surface it: the "no rows" condition of a
      keyed SELECT, or any other failure of the storage engine. */
  datatype Error = NoRows | EngineError

  /** Go's `(value, error)` result pair. */
  datatype Reply<+T> = Reply(value: T, err: Option<Error>)

  type Status = string

  /** `ParcelStatusRegistered`: the only status under which the address may be
      changed and the parcel deleted. */
  const Registered: Status := "registered"

  /** `ParcelStatusSent`. */
  const Sent: Status := "sent"

  /** The domain record (Go struct `Parcel`). Go's `int` is unbounded here. */
  datatype Parcel = Parcel(number: int, client: int, status: Status, address: string, createdAt: string)

  /** Go's zero value `Parcel{}`. */
  const ZeroParcel: Parcel := Parcel(0, 0, "", "", "")

  /** One row of the `parcel` table, keyed elsewhere by its `number`. */
  datatype Row = Row(client: int, status: Status, address: string, createdAt: string)

  /** The columns an INSERT writes: all of the input except its Number. */
  function RowOf(p: Parcel): Row
  {
    Row(p.client, p.status, p.address, p.createdAt)
  }

  /** What a SELECT of `number, status, address, created_at` followed by
      `Scan(&p.Number, &p.Status, &p.Address, &p.CreatedAt)` leaves in a fresh
      `Parcel{}`: the `client` column is not selected, so Client keeps Go's
      zero value 0. */
  function Scanned(number: int, row: Row): Parcel
  {
    Parcel(number, 0, row.status, row.address, row.createdAt)
  }
}
