/**
 * `ParcelStore`: the six operations of parcel.go over a table held in the
 * store. The database handle is replaced by the table it gives access to and
 * by `nextNumber`, the row number the engine will issue on the next INSERT.
 * Engine errors are parameters of each operation.
 */
module Store {
  import opened Parcels
  import opened ParcelTable
  import ParcelHistory

  /** Where the cursor of the client query breaks, if anywhere:
      `Query` itself, the `Scan` of the row at index `at`, or the call
      `rows.Next()` numbered `at` (it then returns false and `rows.Err()`
      reports the error). */
  datatype CursorFault = NoFault | QueryFault | ScanFault(at: nat) | NextFault(at: nat)

  /** Whether the fault is reached while the cursor yields `count` rows. */
  predicate Fires(f: CursorFault, count: nat)
  {
    match f
    case NoFault => false
    case QueryFault => true
    case ScanFault(at) => at < count
    case NextFault(at) => at <= count
  }

  /** No parcel occurs twice. */
  predicate Distinct(ps: seq<Parcel>)
  {
    forall i, j :: 0 <= i < j < |ps| ==> ps[i] != ps[j]
  }

  class ParcelStore {
    var table: Table
    var nextNumber: int

    /** The table and the counter as one value, the state that the request
        sequences of `ParcelHistory` step through. */
    ghost function Snapshot(): ParcelHistory.State
      reads this
    {
      ParcelHistory.State(table, nextNumber)
    }

    /** Every stored number was issued before `nextNumber`, which is nonzero. */
    ghost predicate Valid()
      reads this
    {
      ParcelHistory.ValidState(Snapshot())
    }

    /** `NewParcelStore(db)`: the store over the rows already in the table. */
    constructor (rows: Table, next: int)
      requires 1 <= next && forall k :: k in rows ==> k < next
      ensures Valid() && table == rows && nextNumber == next
    {
      table := rows;
      nextNumber := next;
    }

    /** Inserts `p` under a fresh number and returns it. The input's Number is
        ignored. `execFails` is an error of the INSERT, which leaves the table
        untouched; `idFails` an error of `LastInsertId` after the row was
        inserted, which the code reports as `(0, err)` with the row kept. */
    method Add(p: Parcel, execFails: bool, idFails: bool) returns (id: int, err: Option<Error>)
      requires Valid()
      modifies this
      ensures Valid()
      ensures execFails ==> id == 0 && err == Some(EngineError)
      ensures execFails ==> table == old(table) && nextNumber == old(nextNumber)
      ensures !execFails ==> old(nextNumber) !in old(table)
      ensures !execFails ==> table == Insert(old(table), old(nextNumber), p) && nextNumber == old(nextNumber) + 1
      ensures !execFails && idFails ==> id == 0 && err == Some(EngineError)
      ensures !execFails && !idFails ==> err == None && id == old(nextNumber) && id != 0 && id !in old(table)
      ensures !execFails ==> Snapshot() == ParcelHistory.Step(old(Snapshot()), ParcelHistory.AddOp(p))
    {
      if execFails {
        return 0, Some(EngineError);
      }
      var inserted := nextNumber;
      table := Insert(table, inserted, p);
      nextNumber := nextNumber + 1;
      if idFails {
        return 0, Some(EngineError);
      }
      id, err := inserted, None;
    }

    /** Fetches the parcel numbered `number`. */
    function Get(number: int, fails: bool): (r: Reply<Parcel>)
      reads this
      ensures r.err == None <==> !fails && number in table
      ensures !fails && number !in table ==> r.err == Some(NoRows)
      ensures fails ==> r.err == Some(EngineError)
      ensures r.err != None ==> r.value == ZeroParcel
      ensures r.err == None ==> r.value.number == number && r.value.client == 0
      ensures r.err == None ==> r.value.status == table[number].status
      ensures r.err == None ==> r.value.address == table[number].address && r.value.createdAt == table[number].createdAt
    {
      Lookup(table, number, fails)
    }

    /** Fetches every parcel of `client`, in whatever order the cursor yields
        the rows. Any fault returns no parcels at all, never part of them. */
    method GetByClient(client: int, fault: CursorFault) returns (res: seq<Parcel>, err: Option<Error>)
      ensures err != None <==> Fires(fault, |MatchingKeys(table, client)|)
      ensures err != None ==> res == [] && err == Some(EngineError)
      ensures err == None ==> forall p :: p in res <==> p in ByClient(table, client)
      ensures err == None ==> Distinct(res) && |res| == |MatchingKeys(table, client)|
    {
      if fault == QueryFault {
        return [], Some(EngineError);
      }
      var matching := MatchingKeys(table, client);
      var pending := matching;
      res := [];
      var i := 0;
      while |pending| > 0 && fault != NextFault(i)
        invariant pending <= matching
        invariant i == |res| && i + |pending| == |matching|
        invariant forall j :: 0 <= j < |res| ==> res[j].number in matching - pending
        invariant forall j :: 0 <= j < |res| ==> res[j] == Scanned(res[j].number, table[res[j].number])
        invariant forall k :: k in matching - pending ==> Scanned(k, table[k]) in res
        invariant Distinct(res)
        invariant fault.ScanFault? ==> fault.at >= i
        invariant fault.NextFault? ==> fault.at >= i
        decreases pending
      {
        NonEmptyHasKey(pending);
        var k :| k in pending;
        if fault == ScanFault(i) {
          return [], Some(EngineError);
        }
        res := res + [Scanned(k, table[k])];
        pending := pending - {k};
        i := i + 1;
      }
      if fault == NextFault(i) {
        return [], Some(EngineError);
      }
      err := None;
      forall p | p in ByClient(table, client) ensures p in res {
        var k :| k in matching && p == Scanned(k, table[k]);
      }
    }

    /** Sets the status of parcel `number`, whatever it was; a missing number
        is no error. */
    method SetStatus(number: int, status: Status, fails: bool) returns (err: Option<Error>)
      requires Valid()
      modifies this`table
      ensures Valid()
      ensures err == (if fails then Some(EngineError) else None)
      ensures table == if fails then old(table) else UpdateStatus(old(table), number, status)
      ensures !fails ==> Snapshot() == ParcelHistory.Step(old(Snapshot()), ParcelHistory.SetStatusOp(number, status))
    {
      if fails {
        return Some(EngineError);
      }
      table := UpdateStatus(table, number, status);
      err := None;
    }

    /** Sets the address of parcel `number` if it is registered; otherwise the
        table is unchanged and no error is reported. */
    method SetAddress(number: int, address: string, fails: bool) returns (err: Option<Error>)
      requires Valid()
      modifies this`table
      ensures Valid()
      ensures err == (if fails then Some(EngineError) else None)
      ensures table == if fails then old(table) else UpdateAddress(old(table), number, address)
      ensures !fails ==> Snapshot() == ParcelHistory.Step(old(Snapshot()), ParcelHistory.SetAddressOp(number, address))
    {
      if fails {
        return Some(EngineError);
      }
      table := UpdateAddress(table, number, address);
      err := None;
    }

    /** Deletes parcel `number` if it is registered; otherwise the table is
        unchanged and no error is reported. */
    method Delete(number: int, fails: bool) returns (err: Option<Error>)
      requires Valid()
      modifies this`table
      ensures Valid()
      ensures err == (if fails then Some(EngineError) else None)
      ensures table == if fails then old(table) else DeleteRegistered(old(table), number)
      ensures !fails ==> Snapshot() == ParcelHistory.Step(old(Snapshot()), ParcelHistory.DeleteOp(number))
    {
      if fails {
        return Some(EngineError);
      }
      table := DeleteRegistered(table, number);
      err := None;
    }
  }

  /** Not a model of any operation: a caller that walks through the sequence
      of the repository's tests, to show what it can conclude from the
      contracts above alone. */
  method ClientOfStore(client: int, createdAt: string)
  {
    var store := new ParcelStore(map[], 1);
    var input := Parcel(0, client, Registered, "test", createdAt);
    var id, err := store.Add(input, false, false);
    assert err == None && id != 0;

    var got := store.Get(id, false);
    assert got == Reply(Parcel(id, 0, Registered, "test", createdAt), None);

    err := store.SetAddress(id, "new test address", false);
    assert err == None && store.Get(id, false).value.address == "new test address";

    err := store.SetStatus(id, Sent, false);
    assert err == None && store.Get(id, false).value.status == Sent;

    err := store.Delete(id, false);
    assert err == None && store.Get(id, false).err == None;

    var other, _ := store.Add(input, false, false);
    var all, queryErr := store.GetByClient(client, NoFault);
    assert queryErr == None && |all| == |MatchingKeys(store.table, client)|;
  }
}
