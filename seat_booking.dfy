/** The class revision `SeatBookingSystem`: the seat table is a field, and
    every operation that takes a seat code validates it itself. */
module SeatBooking {
  import opened SeatLayout
  import opened Inventory
  import opened SeatCode
  import opened Decimal

  /** The dictionary `summary()` returns: {"free", "reserved", "storage"}. */
  datatype Counts = Counts(free: nat, reserved: nat, storage: nat)

  /** The effect of `book_seat(code)` on a table: the validation error and no
      change, or the outcome of booking the seat the code names. Only a
      successful booking changes the table, and the table stays well formed. */
  function BookSeatStep(m: SeatMap, code: string): (r: (Result<bool, SeatError>, SeatMap))
    requires WellFormed(m)
    ensures WellFormed(r.1)
    ensures r.0 != Success(true) ==> r.1 == m
  {
    match Normalise(code, m)
    case Failure(e) => (Failure(e), m)
    case Success(id) =>
      InAllSeats(id);
      UpdatesKeepWellFormed(m, id);
      (Success(Reserve(m, id).0), Reserve(m, id).1)
  }

  /** The effect of `free_seat(code)` on a table: the validation error and no
      change, or the outcome of freeing the seat the code names. Only a
      successful release changes the table, and the table stays well formed. */
  function FreeSeatStep(m: SeatMap, code: string): (r: (Result<bool, SeatError>, SeatMap))
    requires WellFormed(m)
    ensures WellFormed(r.1)
    ensures r.0 != Success(true) ==> r.1 == m
  {
    match Normalise(code, m)
    case Failure(e) => (Failure(e), m)
    case Success(id) =>
      InAllSeats(id);
      UpdatesKeepWellFormed(m, id);
      (Success(Release(m, id).0), Release(m, id).1)
  }

  class SeatBookingSystem {
    var seats: SeatMap

    ghost predicate Valid()
      reads this
    {
      WellFormed(seats)
    }

    /** `__init__`: an empty table filled by `_init_seats`. */
    constructor ()
      ensures Valid() && IsInitialMap(seats)
    {
      seats := map[];
      new;
      InitSeats();
      InitialIsWellFormed(seats);
    }

    /** `_init_seats`: sets every seat of rows 1-80, letters A-F, to "S" when
        its row is a storage row and its letter a storage column, else to "F";
        any other entry of the table is kept. */
    method InitSeats()
      modifies this
      ensures seats.Keys == old(seats).Keys + AllSeats
      ensures forall id :: id in seats ==>
        seats[id] == if ValidId(id) then InitialStatus(id) else old(seats)[id]
    {
      for row := FirstRow to LastRow + 1
        invariant forall id :: id in seats <==> id in old(seats) || (ValidId(id) && id.row < row)
        invariant forall id :: id in seats ==>
          seats[id] == if ValidId(id) && id.row < row then InitialStatus(id) else old(seats)[id]
      {
        for i := 0 to |Letters|
          invariant forall id :: id in seats <==> (id in old(seats) ||
            (ValidId(id) && (id.row < row || (id.row == row && id.letter in Letters[..i]))))
          invariant forall id :: id in seats ==>
            seats[id] == if ValidId(id) && (id.row < row || (id.row == row && id.letter in Letters[..i]))
                         then InitialStatus(id) else old(seats)[id]
        {
          var letter := Letters[i];
          assert Letters[..i + 1] == Letters[..i] + [letter];
          seats := seats[SeatId(row, letter) :=
            if row in StorageRows && letter in StorageCols then Storage else Free];
        }
      }
      forall id ensures id in seats <==> id in old(seats).Keys + AllSeats {
        InAllSeats(id);
      }
    }

    /** `seat_status(code)`: the status of the seat a valid code names, or the
        validation error. It never reports Storage, since storage codes are
        refused by the validation. */
    function SeatStatus(code: string): (r: Result<Status, SeatError>)
      reads this
      requires Valid()
      ensures r.Failure? <==> Normalise(code, seats).Failure?
      ensures r.Success? ==> r.value != Storage
    {
      match Normalise(code, seats)
      case Failure(e) => Failure(e)
      case Success(id) => Success(seats[id])
    }

    /** `is_free(code)`: on a valid code, true exactly when booking that code
        now would succeed. */
    function IsFree(code: string): (r: Result<bool, SeatError>)
      reads this
      requires Valid()
      ensures r.Failure? <==> Normalise(code, seats).Failure?
      ensures r.Success? ==> (r.value <==> BookSeatStep(seats, code).0 == Success(true))
    {
      match SeatStatus(code)
      case Failure(e) => Failure(e)
      case Success(st) => Success(st == Free)
    }

    /** `book_seat(code)`: validates the code, then books the seat if it is
        free. The inner `is_free` call validates the canonical code again,
        which resolves to the same seat. */
    method BookSeat(code: string) returns (r: Result<bool, SeatError>)
      requires Valid()
      modifies this
      ensures Valid()
      ensures (r, seats) == BookSeatStep(old(seats), code)
    {
      var n := Normalise(code, seats);
      if n.Failure? {
        return Failure(n.error);
      }
      var canonical := Code(n.value);
      NormaliseIdempotent(code, seats);
      InAllSeats(n.value);
      if IsFree(canonical) == Success(true) {
        seats := seats[n.value := Reserved];
        return Success(true);
      }
      return Success(false);
    }

    /** `free_seat(code)`: validates the code, then frees the seat if it is
        reserved. */
    method FreeSeat(code: string) returns (r: Result<bool, SeatError>)
      requires Valid()
      modifies this
      ensures Valid()
      ensures (r, seats) == FreeSeatStep(old(seats), code)
    {
      var n := Normalise(code, seats);
      if n.Failure? {
        return Failure(n.error);
      }
      InAllSeats(n.value);
      if seats[n.value] == Reserved {
        seats := seats[n.value := Free];
        return Success(true);
      }
      return Success(false);
    }

    /** `summary()`: the number of seats per status, counted into a dictionary
        keyed by status. The table is not changed; the three counts add up to
        480 and six seats are storage. */
    method Summary() returns (c: Counts)
      requires Valid()
      ensures c == Counts(Count(seats, Free), Count(seats, Reserved), Count(seats, Storage))
      ensures c.free + c.reserved + c.storage == 480 && c.storage == 6
    {
      var counts: map<Status, nat> := map[Free := 0, Reserved := 0, Storage := 0];
      var rest := seats.Keys;
      forall st ensures st in counts && counts[st] == |Having(seats, seats.Keys - rest, st)| {
        assert st.Free? || st.Reserved? || st.Storage?;
        NothingCountedYet(seats, st);
      }
      while rest != {}
        invariant rest <= seats.Keys
        invariant forall st :: st in counts && counts[st] == |Having(seats, seats.Keys - rest, st)|
        decreases |rest|
      {
        var id :| id in rest;
        var status := seats[id];
        forall st ensures |Having(seats, seats.Keys - (rest - {id}), st)| ==
          |Having(seats, seats.Keys - rest, st)| + (if status == st then 1 else 0) {
          CountOneMore(seats, rest, id, st);
        }
        counts := counts[status := counts[status] + 1];
        rest := rest - {id};
      }
      assert seats.Keys - rest == seats.Keys;
      c := Counts(counts[Free], counts[Reserved], counts[Storage]);
      CountsSum(seats);
    }
  }

  /** Before the loop no seat has been counted. */
  lemma NothingCountedYet(m: SeatMap, st: Status)
    ensures |Having(m, m.Keys - m.Keys, st)| == 0
  {
    assert m.Keys - m.Keys == {};
    assert Having(m, {}, st) == {};
  }

  /** Counting one more seat of the table. */
  lemma CountOneMore(m: SeatMap, rest: set<SeatId>, id: SeatId, st: Status)
    requires rest <= m.Keys && id in rest
    ensures |Having(m, m.Keys - (rest - {id}), st)| ==
      |Having(m, m.Keys - rest, st)| + (if m[id] == st then 1 else 0)
  {
    HavingAdd(m, m.Keys - rest, id, st);
    assert (m.Keys - rest) + {id} == m.Keys - (rest - {id});
  }

  /** `test_single_booking_cycle`: on a free seat, booking twice gives True then
      False, and freeing twice then gives True then False, ending with the
      table it started from. */
  lemma BookingCycle(m: SeatMap, code: string)
    requires WellFormed(m)
    requires Normalise(code, m).Success? && m[Normalise(code, m).value] == Free
    ensures var (b1, m1) := BookSeatStep(m, code);
            var (b2, m2) := BookSeatStep(m1, code);
            var (f1, m3) := FreeSeatStep(m2, code);
            var (f2, m4) := FreeSeatStep(m3, code);
            b1 == Success(true) && b2 == Success(false) &&
            f1 == Success(true) && f2 == Success(false) && m4 == m
  {
    var id := Normalise(code, m).value;
    InAllSeats(id);
    var m1 := BookSeatStep(m, code).1;
    NormaliseIgnoresBookings(code, m, m1);
    var m3 := FreeSeatStep(m1, code).1;
    NormaliseIgnoresBookings(code, m, m3);
    ReserveThenRelease(m, id);
  }

  lemma CleanZeroZ()
    ensures Clean("0Z") == "0" + ['Z']
  {
    var s := "0Z";
    PyStr.StripPadded([], s, []);
    assert [] + s + [] == s;
    assert PyStr.Upper(s)[0] == '0' && PyStr.Upper(s)[1] == 'Z';
  }

  lemma SpellingSeventySevenE()
    ensures [] + Zeros(0) + Text(77) + ['E'] + [] == "77E"
  {
    assert Text(77) == "77";
    assert Zeros(0) == [];
  }

  /** `test_validation`, first half: "0Z" is refused as out of range, so
      `seat_status("0Z")` raises. */
  lemma ZeroRowRejected(m: SeatMap)
    requires WellFormed(m)
    ensures Normalise("0Z", m) == Failure(OutOfRange)
  {
    CleanZeroZ();
    NormaliseRejectsOutOfRange("0Z", "0", 'Z', m);
  }

  /** `test_validation`, second half: booking "77E" is refused as storage, with
      no change to the table. */
  lemma StorageCodeRejected(m: SeatMap)
    requires WellFormed(m)
    ensures BookSeatStep(m, "77E") == (Failure(StorageArea(SeatId(77, 'E'))), m)
  {
    SpellingSeventySevenE();
    NormaliseRejectsStorage([], 0, SeatId(77, 'E'), 'E', [], m);
  }

  /** Every spelling of a storage place is refused by both `book_seat` and
      `free_seat`, and leaves the table as it was. */
  lemma StorageNeverChanges(m: SeatMap, w1: string, k: nat, id: SeatId, c: char, w2: string)
    requires WellFormed(m)
    requires PyStr.AllSpace(w1) && PyStr.AllSpace(w2)
    requires ValidId(id) && IsStorage(id) && PyStr.ToUpper(c) == id.letter
    ensures var code := w1 + Zeros(k) + Text(id.row) + [c] + w2;
      BookSeatStep(m, code) == (Failure(StorageArea(id)), m) &&
      FreeSeatStep(m, code) == (Failure(StorageArea(id)), m)
  {
    NormaliseRejectsStorage(w1, k, id, c, w2, m);
  }

  /** A call of `book_seat` or `free_seat` with a raw, unvalidated code. */
  datatype Request = BookRequest(code: string) | FreeRequest(code: string)

  function Serve(m: SeatMap, q: Request): (m': SeatMap)
    requires WellFormed(m)
    ensures WellFormed(m')
  {
    match q
    case BookRequest(code) => BookSeatStep(m, code).1
    case FreeRequest(code) => FreeSeatStep(m, code).1
  }

  /** The table after a sequence of calls. */
  function ServeAll(m: SeatMap, qs: seq<Request>): SeatMap
    requires WellFormed(m)
  {
    if qs == [] then m else ServeAll(Serve(m, qs[0]), qs[1..])
  }

  /** Any sequence of `book_seat` / `free_seat` calls, valid or not, leaves a
      well-formed table: the same 480 seats, the six storage seats still
      Storage and no other seat Storage, so `summary()` still reports
      free + reserved + storage == 480 with six storage seats. */
  lemma {:induction false} ServeAllKeepsCounts(m: SeatMap, qs: seq<Request>)
    requires WellFormed(m)
    ensures WellFormed(ServeAll(m, qs))
    ensures Count(ServeAll(m, qs), Free) + Count(ServeAll(m, qs), Reserved) == 474
    ensures Count(ServeAll(m, qs), Storage) == 6
  {
    if qs == [] {
      CountsSum(m);
    } else {
      ServeAllKeepsCounts(Serve(m, qs[0]), qs[1..]);
    }
  }
}
