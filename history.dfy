/**
 * Sequences of requests against the store, each executed without an engine
 * error, and what holds across them: numbers stay below the next one to be
 * issued and are never handed out again, and a parcel that has left
 * `registered` can be changed by nothing but a status update.
 */
module ParcelHistory {
  import opened Parcels
  import opened ParcelTable

  /** The table together with the engine's next row number. */
  datatype State = State(table: Table, next: int)

  /** Every existing number was issued before `next`, and `next` is nonzero. */
  predicate ValidState(s: State)
  {
    1 <= s.next && forall k :: k in s.table ==> k < s.next
  }

  /** The four operations of the store that change the table. Each method of
      `Store.ParcelStore` that changes the table ensures that, without an
      engine error, its new state is `Step` of its old one. */
  datatype Op =
    | AddOp(parcel: Parcel)
    | SetStatusOp(number: int, status: Status)
    | SetAddressOp(number: int, address: string)
    | DeleteOp(number: int)

  function Step(s: State, op: Op): State
    requires ValidState(s)
  {
    match op
    case AddOp(p) => State(Insert(s.table, s.next, p), s.next + 1)
    case SetStatusOp(n, st) => State(UpdateStatus(s.table, n, st), s.next)
    case SetAddressOp(n, a) => State(UpdateAddress(s.table, n, a), s.next)
    case DeleteOp(n) => State(DeleteRegistered(s.table, n), s.next)
  }

  /** The state after executing `ops` in order. */
  function Run(s: State, ops: seq<Op>): (r: State)
    requires ValidState(s)
    ensures ValidState(r) && s.next <= r.next
    decreases |ops|
  {
    if ops == [] then s else Run(Step(s, ops[0]), ops[1..])
  }

  /** A number that was issued and is no longer in the table (it was
      deleted) never reappears: the counter only moves forward. */
  lemma {:induction false} NumbersNeverReused(s: State, ops: seq<Op>, n: int)
    requires ValidState(s) && n !in s.table && n < s.next
    ensures n !in Run(s, ops).table
    decreases |ops|
  {
    if ops != [] {
      NumbersNeverReused(Step(s, ops[0]), ops[1..], n);
    }
  }

  /** Whether `op` is a status update of parcel `n`. */
  predicate SetsStatusOf(op: Op, n: int)
  {
    op.SetStatusOp? && op.number == n
  }

  /** Once a parcel is out of `registered`, SetAddress and Delete are
      permanent no-ops on it: only a status update can change its row. */
  lemma {:induction false} FrozenOutsideRegistered(s: State, ops: seq<Op>, n: int)
    requires ValidState(s) && n in s.table && s.table[n].status != Registered
    requires forall i :: 0 <= i < |ops| ==> !SetsStatusOf(ops[i], n)
    ensures n in Run(s, ops).table && Run(s, ops).table[n] == s.table[n]
    decreases |ops|
  {
    if ops != [] {
      assert !SetsStatusOf(ops[0], n);
      FrozenOutsideRegistered(Step(s, ops[0]), ops[1..], n);
    }
  }

  /** The life of one parcel: add it as registered, change its address, send
      it, then try to delete it. The delete is refused by its guard and the
      parcel still reads back, with status `sent` and the new address. */
  lemma {:induction false} AddressStatusDeleteScenario(s: State, p: Parcel, newAddress: string)
    requires ValidState(s) && p.status == Registered
    ensures var x := s.next;
            var r := Run(s, [AddOp(p), SetAddressOp(x, newAddress), SetStatusOp(x, Sent), DeleteOp(x)]);
            Lookup(r.table, x, false) == Reply(Parcel(x, 0, Sent, newAddress, p.createdAt), None)
  {
    var x := s.next;
    var ops := [AddOp(p), SetAddressOp(x, newAddress), SetStatusOp(x, Sent), DeleteOp(x)];
    var s1 := Step(s, ops[0]);
    var s2 := Step(s1, ops[1]);
    var s3 := Step(s2, ops[2]);
    var s4 := Step(s3, ops[3]);
    assert s3.table[x].status == Sent;
    assert s4 == s3;
    assert ops[1..][1..][1..][1..] == [];
    assert Run(s, ops) == Run(s1, ops[1..]) == Run(s2, ops[1..][1..]) == Run(s3, ops[1..][1..][1..]) == s4;
  }
}
