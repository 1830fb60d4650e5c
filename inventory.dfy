/** The single-cell updates that `book_seat` and `free_seat` make to the seat
    table in both revisions, and what they keep. */
module Inventory {
  import opened SeatLayout

  /** Booking one seat: it succeeds exactly when the seat is free, and then that
      seat, and no other, becomes reserved. */
  function Reserve(m: SeatMap, id: SeatId): (r: (bool, SeatMap))
    requires id in m
    ensures r.0 <==> m[id] == Free
    ensures r.1.Keys == m.Keys
    ensures r.1[id] == (if m[id] == Free then Reserved else m[id])
    ensures forall k :: k in m && k != id ==> r.1[k] == m[k]
  {
    if m[id] == Free then (true, m[id := Reserved]) else (false, m)
  }

  /** Freeing one seat: it succeeds exactly when the seat is reserved, and then
      that seat, and no other, becomes free. */
  function Release(m: SeatMap, id: SeatId): (r: (bool, SeatMap))
    requires id in m
    ensures r.0 <==> m[id] == Reserved
    ensures r.1.Keys == m.Keys
    ensures r.1[id] == (if m[id] == Reserved then Free else m[id])
    ensures forall k :: k in m && k != id ==> r.1[k] == m[k]
  {
    if m[id] == Reserved then (true, m[id := Free]) else (false, m)
  }

  /** A failed attempt leaves the table as it was. */
  lemma FailureChangesNothing(m: SeatMap, id: SeatId)
    requires id in m
    ensures !Reserve(m, id).0 ==> Reserve(m, id).1 == m
    ensures !Release(m, id).0 ==> Release(m, id).1 == m
  {
    if !Reserve(m, id).0 {
      assert Reserve(m, id).1 == m;
    }
    if !Release(m, id).0 {
      assert Release(m, id).1 == m;
    }
  }

  /** Neither update can touch a storage seat or create one. */
  lemma UpdatesKeepWellFormed(m: SeatMap, id: SeatId)
    requires WellFormed(m) && id in m
    ensures WellFormed(Reserve(m, id).1)
    ensures WellFormed(Release(m, id).1)
  {
  }

  /** Booking a free seat and then freeing it restores the table. */
  lemma ReserveThenRelease(m: SeatMap, id: SeatId)
    requires id in m && m[id] == Free
    ensures Release(Reserve(m, id).1, id) == (true, m)
  {
    var m2 := Reserve(m, id).1;
    var m3 := Release(m2, id).1;
    assert m3.Keys == m.Keys;
    assert forall k :: k in m ==> m3[k] == m[k];
    assert m3 == m;
  }

  /** Booking twice: the second attempt fails. */
  lemma ReserveTwice(m: SeatMap, id: SeatId)
    requires id in m
    ensures !Reserve(Reserve(m, id).1, id).0
  {
  }

  /** Freeing twice: the second attempt fails. */
  lemma ReleaseTwice(m: SeatMap, id: SeatId)
    requires id in m
    ensures !Release(Release(m, id).1, id).0
  {
  }

  /** How the counts of a table without key changes compare, seat by seat:
      if only seat id differs, from a to b, one seat moves from a's count to b's. */
  lemma MoveOneSeat(m: SeatMap, m': SeatMap, id: SeatId, a: Status, b: Status, st: Status)
    requires id in m && m'.Keys == m.Keys && m[id] == a && m'[id] == b && a != b
    requires forall k :: k in m && k != id ==> m'[k] == m[k]
    ensures Count(m', st) == Count(m, st) + (if st == b then 1 else 0) - (if st == a then 1 else 0)
  {
    var rest := m.Keys - {id};
    assert Having(m, rest, st) == Having(m', rest, st);
    HavingAdd(m, rest, id, st);
    HavingAdd(m', rest, id, st);
    assert rest + {id} == m.Keys;
  }

  /** A successful booking moves one seat from the free count to the reserved
      count and leaves the storage count alone. */
  lemma ReserveCounts(m: SeatMap, id: SeatId)
    requires id in m && Reserve(m, id).0
    ensures Count(Reserve(m, id).1, Free) == Count(m, Free) - 1
    ensures Count(Reserve(m, id).1, Reserved) == Count(m, Reserved) + 1
    ensures Count(Reserve(m, id).1, Storage) == Count(m, Storage)
  {
    var m' := Reserve(m, id).1;
    MoveOneSeat(m, m', id, Free, Reserved, Free);
    MoveOneSeat(m, m', id, Free, Reserved, Reserved);
    MoveOneSeat(m, m', id, Free, Reserved, Storage);
  }

  /** A successful release moves one seat from the reserved count back to the
      free count. */
  lemma ReleaseCounts(m: SeatMap, id: SeatId)
    requires id in m && Release(m, id).0
    ensures Count(Release(m, id).1, Free) == Count(m, Free) + 1
    ensures Count(Release(m, id).1, Reserved) == Count(m, Reserved) - 1
    ensures Count(Release(m, id).1, Storage) == Count(m, Storage)
  {
    var m' := Release(m, id).1;
    MoveOneSeat(m, m', id, Reserved, Free, Free);
    MoveOneSeat(m, m', id, Reserved, Free, Reserved);
    MoveOneSeat(m, m', id, Reserved, Free, Storage);
  }

  /** A call of `book_seat` or `free_seat` on an already validated seat. */
  datatype Op = BookOp(id: SeatId) | FreeOp(id: SeatId)

  function Apply(m: SeatMap, op: Op): (m': SeatMap)
    requires op.id in m
    ensures m'.Keys == m.Keys
  {
    match op
    case BookOp(id) => Reserve(m, id).1
    case FreeOp(id) => Release(m, id).1
  }

  /** The table after a sequence of calls, each on a seat of the table. */
  function Run(m: SeatMap, ops: seq<Op>): (m': SeatMap)
    requires forall i :: 0 <= i < |ops| ==> ops[i].id in m
    ensures m'.Keys == m.Keys
  {
    if ops == [] then m else Run(Apply(m, ops[0]), ops[1..])
  }

  /** Any sequence of bookings and releases keeps the key set, keeps the six
      storage seats Storage, never turns another seat into Storage, and so keeps
      free + reserved + storage == 480 with six storage seats. */
  lemma {:induction false} RunKeepsWellFormed(m: SeatMap, ops: seq<Op>)
    requires WellFormed(m)
    requires forall i :: 0 <= i < |ops| ==> ops[i].id in m
    ensures WellFormed(Run(m, ops))
    ensures Count(Run(m, ops), Free) + Count(Run(m, ops), Reserved) == 474
  {
    if ops == [] {
      CountsSum(m);
    } else {
      UpdatesKeepWellFormed(m, ops[0].id);
      RunKeepsWellFormed(Apply(m, ops[0]), ops[1..]);
    }
  }
}
