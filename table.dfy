/**
 * The `parcel` table as a finite map from the primary key `number` to the
 * other columns, and the effect that each SQL statement of parcel.go has on
 * it when the engine executes it without error.
 */
module ParcelTable {
  import opened Parcels

  type Table = map<int, Row>

  /** True when the guard `number = :number AND status = :status` with
      `:status = ParcelStatusRegistered` selects a row. */
  predicate RegisteredAt(t: Table, n: int)
  {
    n in t && t[n].status == Registered
  }

  /** `INSERT INTO parcel (client, status, address, created_at) VALUES (...)`
      with the key `id` chosen by the engine. */
  function Insert(t: Table, id: int, p: Parcel): (r: Table)
    requires id !in t
    ensures r.Keys == t.Keys + {id}
    ensures r[id].client == p.client && r[id].status == p.status
    ensures r[id].address == p.address && r[id].createdAt == p.createdAt
    ensures forall k :: k in t ==> r[k] == t[k]
  {
    t[id := RowOf(p)]
  }

  /** `UPDATE parcel SET status = :status WHERE number = :number`: no guard on
      the previous status; a missing number matches no row. */
  function UpdateStatus(t: Table, n: int, s: Status): (r: Table)
    ensures r.Keys == t.Keys
    ensures n in t ==> r[n].status == s
    ensures n in t ==> r[n].client == t[n].client && r[n].address == t[n].address && r[n].createdAt == t[n].createdAt
    ensures forall k :: k in t && k != n ==> r[k] == t[k]
    ensures n !in t ==> r == t
  {
    if n in t then t[n := t[n].(status := s)] else t
  }

  /** `UPDATE parcel SET address = :address WHERE number = :number AND
      status = :status` with `:status = ParcelStatusRegistered`. */
  function UpdateAddress(t: Table, n: int, a: string): (r: Table)
    ensures r.Keys == t.Keys
    ensures RegisteredAt(t, n) ==> r[n].address == a
    ensures n in t ==> r[n].client == t[n].client && r[n].status == t[n].status && r[n].createdAt == t[n].createdAt
    ensures forall k :: k in t && k != n ==> r[k] == t[k]
    ensures !RegisteredAt(t, n) ==> r == t
  {
    if RegisteredAt(t, n) then t[n := t[n].(address := a)] else t
  }

  /** `DELETE FROM parcel WHERE number = :number AND status = :status` with
      `:status = ParcelStatusRegistered`. */
  function DeleteRegistered(t: Table, n: int): (r: Table)
    ensures r.Keys == if RegisteredAt(t, n) then t.Keys - {n} else t.Keys
    ensures forall k :: k in r ==> r[k] == t[k]
  {
    if RegisteredAt(t, n) then t - {n} else t
  }

  /** `SELECT number, status, address, created_at FROM parcel WHERE number =
      :number` scanned into a `Parcel`; `fails` stands for an error of the
      engine. Every error comes with `Parcel{}`. */
  function Lookup(t: Table, n: int, fails: bool): Reply<Parcel>
  {
    if fails then Reply(ZeroParcel, Some(EngineError))
    else if n in t then Reply(Scanned(n, t[n]), None)
    else Reply(ZeroParcel, Some(NoRows))
  }

  /** The keys of the rows `WHERE client = :client` selects. */
  function MatchingKeys(t: Table, c: int): set<int>
  {
    set k | k in t && t[k].client == c
  }

  /** The parcels such a SELECT of `number, status, address, created_at`
      scans, as a set: the statement has no ORDER BY. */
  function ByClient(t: Table, c: int): set<Parcel>
  {
    set k | k in MatchingKeys(t, c) :: Scanned(k, t[k])
  }

  /** Get after Add: the row reads back with the generated number and the
      input's status, address and creation time. */
  lemma InsertThenLookup(t: Table, id: int, p: Parcel)
    requires id !in t
    ensures Lookup(Insert(t, id, p), id, false).err == None
    ensures Lookup(Insert(t, id, p), id, false).value == p.(number := id, client := 0)
  {
  }

  /** The client column is not read back: whenever the input's Client is
      nonzero, Get after Add does not return the input with its new number,
      which is what the repository's tests compare against. */
  lemma ClientNotReadBack(t: Table, id: int, p: Parcel)
    requires id !in t && p.client != 0
    ensures Lookup(Insert(t, id, p), id, false).value != p.(number := id)
  {
  }

  /** GetByClient after Add: the new row is selected exactly when its client
      is the one asked for, and it reads back with the generated number, the
      input's status, address and creation time, and Client 0. With a nonzero
      client, the input with its new number, which is what the repository's
      client-query test compares against, is not among the results. */
  lemma InsertThenByClient(t: Table, id: int, p: Parcel, c: int)
    requires id !in t
    ensures MatchingKeys(Insert(t, id, p), c) == MatchingKeys(t, c) + (if p.client == c then {id} else {})
    ensures p.client == c ==> p.(number := id, client := 0) in ByClient(Insert(t, id, p), c)
    ensures p.client == c && c != 0 ==> p.(number := id) !in ByClient(Insert(t, id, p), c)
  {
  }

  /** Get on a deleted registered parcel reports "no rows" with `Parcel{}`. */
  lemma DeleteThenLookup(t: Table, n: int)
    requires RegisteredAt(t, n)
    ensures Lookup(DeleteRegistered(t, n), n, false) == Reply(ZeroParcel, Some(NoRows))
  {
  }

  /** A parcel outside `registered` survives Delete and reads back as before;
      its address does not change either. */
  lemma GuardedOutIsNoOp(t: Table, n: int, a: string)
    requires n in t && t[n].status != Registered
    ensures DeleteRegistered(t, n) == t && UpdateAddress(t, n, a) == t
    ensures Lookup(DeleteRegistered(t, n), n, false) == Lookup(t, n, false)
  {
  }

  /** SetStatus then Get succeeds and reflects the new status whatever the
      old one was; the other fields read back as before. */
  lemma UpdateStatusThenLookup(t: Table, n: int, s: Status)
    requires n in t
    ensures Lookup(UpdateStatus(t, n, s), n, false).err == None
    ensures Lookup(UpdateStatus(t, n, s), n, false).value == Lookup(t, n, false).value.(status := s)
    ensures Lookup(UpdateStatus(t, n, s), n, false).value == Parcel(n, 0, s, t[n].address, t[n].createdAt)
  {
  }

  /** Missing numbers: every update and delete leaves the table as it was and
      Get still fails. */
  lemma MissingNumberIsNoOp(t: Table, n: int, s: Status, a: string)
    requires n !in t
    ensures UpdateStatus(t, n, s) == t && UpdateAddress(t, n, a) == t && DeleteRegistered(t, n) == t
    ensures Lookup(t, n, false).err == Some(NoRows)
  {
  }

  /** Every parcel the client query selects is its row read back, once per
      key, so there are as many parcels as matching rows. */
  lemma {:induction false} ByClientSize(t: Table, c: int)
    ensures |ByClient(t, c)| == |MatchingKeys(t, c)|
  {
    ScannedSetSize(t, MatchingKeys(t, c));
  }

  /** A set of keys that is not empty has an element to pick. */
  lemma NonEmptyHasKey(keys: set<int>)
    requires |keys| > 0
    ensures exists k :: k in keys
  {
    if forall k :: k !in keys {
      assert false;
    }
  }

  lemma {:induction false} ScannedSetSize(t: Table, keys: set<int>)
    requires keys <= t.Keys
    ensures |set k | k in keys :: Scanned(k, t[k])| == |keys|
    decreases |keys|
  {
    if |keys| > 0 {
      NonEmptyHasKey(keys);
      var k0 :| k0 in keys;
      var rest := keys - {k0};
      ScannedSetSize(t, rest);
      var whole := set k | k in keys :: Scanned(k, t[k]);
      var part := set k | k in rest :: Scanned(k, t[k]);
      assert whole == part + {Scanned(k0, t[k0])};
      assert Scanned(k0, t[k0]) !in part;
    }
  }
}
