/** The fixed facts about the airframe: 80 rows of six seats A-F, an aisle
    between C and D, and six storage places in rows 77-78, seats D-F. */
module SeatLayout {

  const Letters: string := "ABCDEF"
  const FirstRow: int := 1
  const LastRow: int := 80
  const StorageRows: set<int> := {77, 78}
  const StorageCols: set<char> := {'D', 'E', 'F'}

  /** A seat position. The source keys its table by the text "{row}{letter}";
      here the key is the pair itself (the text is SeatCode.Code). */
  datatype SeatId = SeatId(row: int, letter: char)

  /** The status codes "F", "R" and "S". */
  datatype Status = Free | Reserved | Storage

  type SeatMap = map<SeatId, Status>

  predicate ValidId(id: SeatId) {
    FirstRow <= id.row <= LastRow && id.letter in Letters
  }

  predicate IsStorage(id: SeatId) {
    id.row in StorageRows && id.letter in StorageCols
  }

  function InitialStatus(id: SeatId): Status {
    if IsStorage(id) then Storage else Free
  }

  /** Every seat of the aircraft. */
  ghost const AllSeats: set<SeatId> :=
    set r: int, l: char | FirstRow <= r <= LastRow && l in Letters :: SeatId(r, l)

  lemma InAllSeats(id: SeatId)
    ensures id in AllSeats <==> ValidId(id)
  {
    if ValidId(id) {
      assert id == SeatId(id.row, id.letter);
    }
  }

  ghost function RowsThrough(n: int): set<SeatId> {
    set r: int, l: char | FirstRow <= r <= n && l in Letters :: SeatId(r, l)
  }

  ghost function RowSeats(n: int): set<SeatId> {
    set l: char | l in Letters :: SeatId(n, l)
  }

  lemma RowSize(n: int)
    ensures |RowSeats(n)| == |Letters|
  {
    assert RowSeats(n) == {SeatId(n, 'A'), SeatId(n, 'B'), SeatId(n, 'C'),
                           SeatId(n, 'D'), SeatId(n, 'E'), SeatId(n, 'F')};
  }

  lemma {:induction false} RowsThroughSize(n: int)
    requires n >= 0
    ensures |RowsThrough(n)| == |Letters| * n
  {
    if n == 0 {
      assert RowsThrough(0) == {};
    } else {
      RowsThroughSize(n - 1);
      RowSize(n);
      assert RowsThrough(n) == RowsThrough(n - 1) + RowSeats(n);
      assert RowsThrough(n - 1) * RowSeats(n) == {};
    }
  }

  /** The aircraft has exactly 80 x 6 = 480 seats. */
  lemma AllSeatsSize()
    ensures |AllSeats| == 480
  {
    RowsThroughSize(LastRow);
    assert AllSeats == RowsThrough(LastRow);
  }

  /** The six storage places, written out. */
  lemma StorageSeatsAre(id: SeatId)
    ensures ValidId(id) && IsStorage(id) <==>
      id in {SeatId(77, 'D'), SeatId(77, 'E'), SeatId(77, 'F'),
             SeatId(78, 'D'), SeatId(78, 'E'), SeatId(78, 'F')}
  {
  }

  /** The invariant of the seat table: it holds exactly the 480 seats, and a
      seat holds Storage exactly when it is one of the six storage places. */
  ghost predicate WellFormed(m: SeatMap) {
    && m.Keys == AllSeats
    && forall id :: id in m ==> (m[id] == Storage <==> IsStorage(id))
  }

  /** The table as the constructor leaves it. */
  ghost predicate IsInitialMap(m: SeatMap) {
    && m.Keys == AllSeats
    && forall id :: id in m ==> m[id] == InitialStatus(id)
  }

  lemma InitialIsWellFormed(m: SeatMap)
    requires IsInitialMap(m)
    ensures WellFormed(m)
  {
  }

  /** The seats among ks that hold status st in m. */
  ghost function Having(m: SeatMap, ks: set<SeatId>, st: Status): set<SeatId> {
    set id | id in ks && id in m && m[id] == st
  }

  /** How many seats of m hold status st. */
  ghost function Count(m: SeatMap, st: Status): nat {
    |Having(m, m.Keys, st)|
  }

  lemma HavingAdd(m: SeatMap, ks: set<SeatId>, id: SeatId, st: Status)
    requires id in m && id !in ks
    ensures |Having(m, ks + {id}, st)| == |Having(m, ks, st)| + (if m[id] == st then 1 else 0)
  {
    if m[id] == st {
      assert Having(m, ks + {id}, st) == Having(m, ks, st) + {id};
    } else {
      assert Having(m, ks + {id}, st) == Having(m, ks, st);
    }
  }

  /** The storage seats of a well-formed table are the six storage places. */
  lemma StorageHaving(m: SeatMap)
    requires WellFormed(m)
    ensures Having(m, m.Keys, Storage) ==
      {SeatId(77, 'D'), SeatId(77, 'E'), SeatId(77, 'F'),
       SeatId(78, 'D'), SeatId(78, 'E'), SeatId(78, 'F')}
  {
    forall id ensures id in Having(m, m.Keys, Storage) <==> ValidId(id) && IsStorage(id) {
      InAllSeats(id);
    }
    forall id ensures id in Having(m, m.Keys, Storage) <==>
      id in {SeatId(77, 'D'), SeatId(77, 'E'), SeatId(77, 'F'),
             SeatId(78, 'D'), SeatId(78, 'E'), SeatId(78, 'F')} {
      StorageSeatsAre(id);
    }
  }

  /** Every seat holds exactly one of the three statuses. */
  lemma StatusPartition(m: SeatMap)
    ensures Count(m, Free) + Count(m, Reserved) + Count(m, Storage) == |m.Keys|
  {
    var f, r, s := Having(m, m.Keys, Free), Having(m, m.Keys, Reserved), Having(m, m.Keys, Storage);
    assert m.Keys == f + r + s;
    assert f * r == {};
    assert (f + r) * s == {};
  }

  /** In a well-formed table free + reserved + storage == 480, and exactly six
      seats are storage. */
  lemma CountsSum(m: SeatMap)
    requires WellFormed(m)
    ensures Count(m, Free) + Count(m, Reserved) + Count(m, Storage) == 480
    ensures Count(m, Storage) == 6
  {
    StatusPartition(m);
    AllSeatsSize();
    StorageHaving(m);
    SixStorageSeats();
  }

  lemma SixStorageSeats()
    ensures |{SeatId(77, 'D'), SeatId(77, 'E'), SeatId(77, 'F'),
              SeatId(78, 'D'), SeatId(78, 'E'), SeatId(78, 'F')}| == 6
  {
  }

  /** A new aircraft has 474 free seats, none reserved and six storage. */
  lemma InitialCounts(m: SeatMap)
    requires IsInitialMap(m)
    ensures Count(m, Free) == 474 && Count(m, Reserved) == 0 && Count(m, Storage) == 6
  {
    CountsSum(m);
    assert Having(m, m.Keys, Reserved) == {};
  }
}
