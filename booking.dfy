/** The procedural revision: a seat table built by `make_initial_seatmap`, held
    in one global (`SEATS`), and the functions that read and update it. Callers
    normalise a code before they book or free it, so `book_seat` and
    `free_seat` receive a seat that is in the table. */
module Booking {
  import opened SeatLayout
  import opened Inventory
  import opened SeatCode

  /** `make_initial_seatmap`: every seat of rows 1-80, letters A-F; "S" in rows
      77-78 for letters D-F, "F" everywhere else. The source inserts the keys
      row by row; a map keeps no insertion order, and nothing in the core reads
      it. */
  method MakeInitialSeatmap() returns (seats: SeatMap)
    ensures IsInitialMap(seats)
  {
    seats := map[];
    for row := FirstRow to LastRow + 1
      invariant forall id :: id in seats <==> ValidId(id) && id.row < row
      invariant forall id :: id in seats ==> seats[id] == InitialStatus(id)
    {
      for i := 0 to |Letters|
        invariant forall id :: id in seats <==>
          ValidId(id) && (id.row < row || (id.row == row && id.letter in Letters[..i]))
        invariant forall id :: id in seats ==> seats[id] == InitialStatus(id)
      {
        var letter := Letters[i];
        assert Letters[..i + 1] == Letters[..i] + [letter];
        seats := seats[SeatId(row, letter) := if letter in "DEF" && row in {77, 78} then Storage else Free];
      }
    }
    forall id ensures id in seats <==> id in AllSeats {
      InAllSeats(id);
    }
  }

  /** The global seat table `SEATS`. */
  class SeatTable {
    var seats: SeatMap

    ghost predicate Valid()
      reads this
    {
      WellFormed(seats)
    }

    /** `SEATS = make_initial_seatmap()`. */
    constructor ()
      ensures Valid() && IsInitialMap(seats)
    {
      var m := MakeInitialSeatmap();
      InitialIsWellFormed(m);
      seats := m;
    }

    /** `is_free_seat(code)`: true exactly for a seat that is neither storage
        nor reserved. */
    function IsFreeSeat(id: SeatId): (r: bool)
      reads this
      requires Valid() && id in seats
      ensures r <==> !IsStorage(id) && seats[id] != Reserved
    {
      seats[id] == Free
    }

    /** `book_seat(code)`: true exactly when the seat was free, which it then
        reserves; nothing else in the table changes. */
    method BookSeat(id: SeatId) returns (ok: bool)
      requires Valid() && id in seats
      modifies this
      ensures Valid()
      ensures (ok, seats) == Reserve(old(seats), id)
    {
      if IsFreeSeat(id) {
        seats := seats[id := Reserved];
        return true;
      }
      return false;
    }

    /** `free_seat(code)`: true exactly when the seat was reserved, which it
        then frees; nothing else in the table changes. */
    method FreeSeat(id: SeatId) returns (ok: bool)
      requires Valid() && id in seats
      modifies this
      ensures Valid()
      ensures (ok, seats) == Release(old(seats), id)
    {
      if seats[id] == Reserved {
        seats := seats[id := Free];
        return true;
      }
      return false;
    }
  }

  /** A code that `normalise_seat` accepts names a seat of the table, so the
      lookups `SEATS[code]` in `is_free_seat`, `book_seat` and `free_seat`
      cannot fail for the codes the caller passes on. */
  lemma NormalisedSeatIsInTable(raw: string, seats: SeatMap)
    requires WellFormed(seats) && Normalise(raw, seats).Success?
    ensures Normalise(raw, seats).value in seats
    ensures !IsStorage(Normalise(raw, seats).value)
  {
    InAllSeats(Normalise(raw, seats).value);
  }
}
