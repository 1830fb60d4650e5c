# Seat inventory of the Burak 757 booking application

This project models the seat inventory of one aircraft: 80 rows of six seats,
A–F. The six places in rows 77–78, seats D–F, are storage and can never be
booked. It proves properties of that model.

The source has two revisions of the same logic, and both are modelled:

- `booking.py` keeps the table in a module-level dictionary `SEATS`. Callers
  validate a code with `normalise_seat` before they call `book_seat` or
  `free_seat`. Here `SEATS` becomes the class `Booking.SeatTable`, and
  `make_initial_seatmap` becomes a method with the source's nested loops.
  Its `book_seat` and `free_seat` are proved equal to the one-seat updates
  `Inventory.Reserve` and `Inventory.Release`.
- `seat_booking.py` is the class `SeatBookingSystem`, whose methods validate the
  code themselves. It becomes the class `SeatBooking.SeatBookingSystem`. Its
  `book_seat` and `free_seat` are each proved equal to a pure step function,
  `BookSeatStep` and `FreeSeatStep`. `__init__` and `_init_seats` are proved
  to leave exactly the initial table.

Both revisions share the following modules:

- `PyStr`: ASCII `strip`, `upper`, `isalpha` and `isdigit`.
- `Decimal`: `int()` on digit strings and `f"{n}"`.
- `SeatLayout`: the constants, seat ids, the table invariant and per-status
  counts.
- `Inventory`: the one-cell updates that booking and freeing make.
- `SeatCode`: the validator `normalise_seat` as `Normalise`, together with its
  accept/reject, canonical-output and idempotence lemmas.

In the source the table maps the text `"{row}{letter}"` to `"F"`, `"R"` or
`"S"`. In the model it maps `SeatId(row, letter)` to `Free`, `Reserved` or
`Storage`. `SeatCode.Code` gives the canonical text, and `CodeInjective` shows
that the two tables have the same entries. Because `Status` has exactly three
values, "every value is F, R or S" holds by construction. The invariant
`WellFormed` says two things:

- the keys are exactly the 480 seats;
- a seat holds `Storage` exactly when it is one of the six storage places.

test_db_edge_cases.py calls a `SeatBookingSystem(db_path)`, a four-argument
`book_seat(code, passport, first, last)` and expects `seat_status` to return an
8-character booking reference. test_seat_booking.py calls `book_adjacent`.
Neither revision defines any of these: the table holds only the three status
letters, `__init__` takes no arguments, and there is no database code. The
model follows the two revisions' code.

## Model

| member | source | states |
|---|---|---|
| PyStr.IsSpace | booking.py:71 | the characters `strip()` removes, restricted to ASCII (tab to carriage return, 0x1C–0x1F, space); `StripPadded` shows these are exactly what is removed |
| PyStr.IsDigits | booking.py:74 | `str.isdigit()`: non-empty and every character an ASCII digit; `ResolveMalformed` uses it for the prefix test |
| PyStr.IsAlpha | booking.py:74 | `str.isalpha()` on one ASCII character: A–Z or a–z; `ResolveMalformed` uses it for the last-character test |
| PyStr.ToUpper | booking.py:71 | `upper()` on one character: a–z become A–Z, everything else is kept; `UpperDigitsLetter` shows digits are unaffected |
| PyStr.Strip | booking.py:71 | `strip()` as left then right trimming; `StripPadded` shows it removes exactly the surrounding whitespace |
| PyStr.Upper | booking.py:71 | `upper()` keeps the length and maps each character on its own |
| PyStr.TrimLeft | booking.py:71 | the result is the suffix left after removing the leading spaces; it is empty or starts with a non-space |
| PyStr.TrimRight | booking.py:71 | the result is the prefix left after removing the trailing spaces; it is empty or ends with a non-space |
| PyStr.TrimLeftSkips | booking.py:71 | stripping the left side removes any all-space prefix in front of a text that starts with a non-space |
| PyStr.TrimRightSkips | booking.py:71 | stripping the right side removes any all-space suffix after a text that ends with a non-space |
| PyStr.StripPadded | seat_booking.py:33 | `strip()` of such a text with any whitespace on both sides gives the text back |
| Decimal.Value | booking.py:77 | `int()` on an ASCII digit string, most significant digit first; `ValueIgnoresLeadingZeros` and `TextOfValue` relate it to `Text` |
| Decimal.Text | booking.py:83 | `f"{row}"` is a non-empty digit string that `int()` reads back as the row, with no leading zero |
| Decimal.ValueOfZeros | booking.py:77 | `int()` of a run of zeros is 0 |
| Decimal.ValueIgnoresLeadingZeros | booking.py:77 | leading zeros do not change the value `int()` reads |
| Decimal.LeadingDigitPositive | booking.py:77 | a digit string without a leading zero has a positive value |
| Decimal.TextAppend | booking.py:83 | appending a digit to the text of a positive number gives the text of ten times it plus the digit |
| Decimal.TextOfValue | booking.py:77-83 | `f"{int(s)}" == s` for a digit string without a leading zero |
| Decimal.ZerosThenText | booking.py:77-83 | a digit string with a positive value is its canonical text preceded by zeros |
| SeatLayout.IsStorage | seat_booking.py:27 | the storage test: row in `STORAGE_ROWS` and letter in `STORAGE_COLS`; `StorageSeatsAre` lists the six places |
| SeatLayout.InitialStatus | booking.py:54-57 | the status a new table gives a seat: Storage for a storage place, Free otherwise; `MakeInitialSeatmap` and `InitSeats` are proved to produce it |
| SeatLayout.WellFormed | seat_booking.py:25-29 | the table invariant: keys exactly the 480 seats, Storage exactly at the storage places; `InitialIsWellFormed`, `UpdatesKeepWellFormed` and `ServeAllKeepsCounts` show it holds from construction on |
| SeatLayout.Count | seat_booking.py:67-69 | the number of seats holding a status; `Summary` is proved to return it, and `CountsSum` bounds it |
| SeatLayout.InAllSeats | booking.py:37-38 | a seat is in the aircraft exactly when its row is 1–80 and its letter is A–F |
| SeatLayout.RowSize | booking.py:50 | each row has six seats |
| SeatLayout.RowsThroughSize | booking.py:49-50 | rows 1..n hold 6·n seats |
| SeatLayout.AllSeatsSize | booking.py:49-51 | the aircraft has exactly 480 seats |
| SeatLayout.StorageSeatsAre | seat_booking.py:7-8 | the storage places are exactly 77D–F and 78D–F |
| SeatLayout.InitialIsWellFormed | booking.py:54-57 | a freshly built table satisfies the table invariant |
| SeatLayout.HavingAdd | seat_booking.py:68-69 | counting one more seat raises the count of its own status by one, and no other |
| SeatLayout.StorageHaving | seat_booking.py:73 | in a well-formed table the storage seats are the six storage places |
| SeatLayout.StatusPartition | seat_booking.py:67-74 | free + reserved + storage equals the number of seats |
| SeatLayout.CountsSum | seat_booking.py:66-74 | in a well-formed table free + reserved + storage == 480 and storage == 6 |
| SeatLayout.InitialCounts | seat_booking.py:16-29 | a new table has 474 free seats, none reserved and 6 storage |
| Inventory.Reserve | booking.py:95-104 | succeeds exactly when the seat is free; only that seat becomes reserved; the keys are kept |
| Inventory.Release | booking.py:107-115 | succeeds exactly when the seat is reserved; only that seat becomes free; the keys are kept |
| Inventory.FailureChangesNothing | booking.py:104 | a failed booking or freeing leaves the table unchanged |
| Inventory.UpdatesKeepWellFormed | booking.py:102 | neither update touches a storage seat or creates one |
| Inventory.ReserveThenRelease | booking.py:95-115 | booking a free seat and then freeing it restores the table, and both calls succeed |
| Inventory.ReserveTwice | booking.py:101-104 | the second booking of a seat fails |
| Inventory.ReleaseTwice | booking.py:112-115 | the second freeing of a seat fails |
| Inventory.MoveOneSeat | booking.py:102 | changing one seat from status a to b moves one unit from a's count to b's count |
| Inventory.ReserveCounts | booking.py:102 | a successful booking lowers the free count by one, raises the reserved count by one and keeps the storage count |
| Inventory.ReleaseCounts | booking.py:113 | a successful freeing raises the free count by one, lowers the reserved count by one and keeps the storage count |
| Inventory.Apply | booking.py:95-115 | one call keeps the key set |
| Inventory.Run | booking.py:95-115 | a sequence of calls keeps the key set |
| Inventory.RunKeepsWellFormed | booking.py:54-57 | any sequence of `book_seat`/`free_seat` on table seats keeps the keys and the storage seats, creates no other storage seat, and keeps free + reserved == 474 |
| SeatCode.Code | booking.py:83 | the canonical text of a seat ends in its letter and has a row part |
| SeatCode.CodeInjective | booking.py:51 | different seats have different code texts |
| SeatCode.Clean | booking.py:71 | `code.strip().upper()`; `CleanPadded` and `CleanCode` show what it leaves of a padded code |
| SeatCode.Normalise | booking.py:67-87 | an accepted code names a seat of the aircraft that is not storage |
| SeatCode.Resolve | seat_booking.py:34-42 | on cleaned text: an accepted code names a seat of the aircraft that is not storage |
| SeatCode.NormaliseIgnoresBookings | booking.py:84 | the result is the same for every well-formed table, whatever has been booked |
| SeatCode.UpperDigitsLetter | booking.py:71 | upper-casing digits followed by a letter upper-cases only the letter |
| SeatCode.DigitsThenLetter | booking.py:71 | digits followed by a letter neither start nor end with a space |
| SeatCode.CleanPadded | booking.py:71 | strip-and-upper of whitespace, digits, a letter and whitespace leaves the digits and the upper-cased letter |
| SeatCode.ResolveDigitsLetter | booking.py:74-87 | digits and a letter naming a seat resolve to that seat, or to the storage error for a storage place |
| SeatCode.CleanSpelling | booking.py:71-77 | a padded, zero-prefixed spelling of a seat cleans to zeros, the row and the upper-case letter, whose digits `int()` reads as the row |
| SeatCode.NormaliseAccepts | booking.py:69-87 | every whitespace padding, zero prefix and letter case of a non-storage seat is accepted and gives that seat (" 12c " gives 12C) |
| SeatCode.ResolveOnlyCanonical | seat_booking.py:34-42 | a cleaned code that is accepted is the seat's canonical code preceded only by zeros |
| SeatCode.NormaliseOnlyCanonical | booking.py:71-87 | any accepted input, once stripped and upper-cased, is zeros followed by the canonical code of the seat returned |
| SeatCode.NormaliseIdempotent | booking.py:71-87 | normalising the canonical code of an accepted input gives the same result |
| SeatCode.NormaliseCanonical | booking.py:83-87 | the canonical code of every non-storage seat is accepted as is |
| SeatCode.CleanCode | booking.py:71 | a canonical code is unchanged by `strip().upper()` |
| SeatCode.NormaliseRejectsStorage | booking.py:84-85 | every spelling of a storage place is refused with the storage error |
| SeatCode.ResolveMalformed | seat_booking.py:34-35 | on cleaned text, the format error is raised exactly when the text is not non-empty digits followed by one letter |
| SeatCode.NormaliseMalformed | booking.py:71-75 | the format error is raised exactly when the stripped, upper-cased text is not non-empty digits followed by one letter |
| SeatCode.NormaliseRejectsShort | booking.py:74-75 | a cleaned text shorter than two characters ("", blanks, "C") is malformed |
| SeatCode.NormaliseRejectsOutOfRange | booking.py:80-81 | digits and a letter naming a row outside 1–80 or a letter outside A–F are out of range |
| SeatCode.SpellingsOfTwelveC | booking.py:69 | " 12c " and "012C" are spellings of 12C, and the canonical code of 12C is "12C" |
| SeatCode.PaddedLowerCaseExample | booking.py:69 | " 12c " normalises to 12C |
| SeatCode.LeadingZeroExample | booking.py:77-83 | "012C" normalises to 12C |
| Booking.MakeInitialSeatmap | booking.py:41-58 | the table has exactly the 480 seats; the value is Storage in rows 77–78 for D–F and Free elsewhere |
| Booking.SeatTable.constructor | booking.py:61 | `SEATS` starts as the initial table and is well formed |
| Booking.SeatTable.IsFreeSeat | booking.py:90-92 | true exactly for a seat that is neither storage nor reserved |
| Booking.SeatTable.BookSeat | booking.py:95-104 | the result and the new table are those of `Reserve` on the old table; the invariant is kept |
| Booking.SeatTable.FreeSeat | booking.py:107-115 | the result and the new table are those of `Release` on the old table; the invariant is kept |
| Booking.NormalisedSeatIsInTable | booking.py:84-87 | a seat accepted by `normalise_seat` is a key of the table and not storage |
| SeatBooking.BookSeatStep | seat_booking.py:51-56 | `book_seat` keeps the invariant; an error or a failed booking changes nothing |
| SeatBooking.FreeSeatStep | seat_booking.py:58-63 | `free_seat` keeps the invariant; an error or a failed freeing changes nothing |
| SeatBooking.SeatBookingSystem.constructor | seat_booking.py:16-18 | the new system holds the initial table, which is well formed |
| SeatBooking.SeatBookingSystem.InitSeats | seat_booking.py:21-29 | the 480 seats are set to Storage exactly for storage rows and storage columns and to Free otherwise; other entries are kept |
| SeatBooking.SeatBookingSystem.SeatStatus | seat_booking.py:45-46 | fails exactly when validation fails, and never reports Storage |
| SeatBooking.SeatBookingSystem.IsFree | seat_booking.py:48-49 | fails exactly when validation fails; otherwise true exactly when booking now would succeed |
| SeatBooking.SeatBookingSystem.BookSeat | seat_booking.py:51-56 | the result and the new table are those of `BookSeatStep`; the invariant is kept |
| SeatBooking.SeatBookingSystem.FreeSeat | seat_booking.py:58-63 | the result and the new table are those of `FreeSeatStep`; the invariant is kept |
| SeatBooking.SeatBookingSystem.Summary | seat_booking.py:66-74 | returns the per-status counts of the unchanged table; they add up to 480 with 6 storage |
| SeatBooking.NothingCountedYet | seat_booking.py:67 | before the loop every status has been counted zero times |
| SeatBooking.CountOneMore | seat_booking.py:68-69 | counting one more seat raises only its status's count, by one |
| SeatBooking.BookingCycle | test_seat_booking.py:27-31 | on a free seat, book, book, free and free give True, False, True and False, and end at the starting table |
| SeatBooking.CleanZeroZ | test_seat_booking.py:22 | "0Z" cleans to "0" followed by 'Z' |
| SeatBooking.SpellingSeventySevenE | test_seat_booking.py:24 | "77E" is the canonical code of 77E |
| SeatBooking.ZeroRowRejected | test_seat_booking.py:20-22 | "0Z" is refused as out of range |
| SeatBooking.StorageCodeRejected | test_seat_booking.py:23-24 | booking "77E" is refused with the storage error, and the table is unchanged |
| SeatBooking.StorageNeverChanges | seat_booking.py:40-41 | every spelling of a storage place is refused by both `book_seat` and `free_seat`, with no change |
| SeatBooking.Serve | seat_booking.py:51-63 | one call with a raw code keeps the table well formed |
| SeatBooking.ServeAllKeepsCounts | test_seat_booking.py:47-52 | after any sequence of calls, valid or not, the table is well formed, free + reserved == 474 and storage == 6 |

## Left out

- Console UI and printing are not modelled: `display_booking_status` and `main` in booking.py, `print_chart` in seat_booking.py, and seat_cli.py. They are I/O.
- The SQLite store, passenger data and booking references appear only in test_db_edge_cases.py. They belong to a revision whose source is not part of this model.
- `book_adjacent` is called by seat_cli.py and test_seat_booking.py:34-52 but defined in no source file, so it is not modelled.
- Decimal.Value / SeatCode.NormaliseAccepts: the limit of 4300 digits that CPython 3.11 and later (and some earlier security releases) place on `int()` is not modelled. A code with more digits than that, leading zeros included, raises `ValueError` there; here it is accepted like any other zero-prefixed spelling.
- Python's `str.strip`, `upper`, `isalpha`, `isdigit` and `int()` are modelled for ASCII only. Non-ASCII whitespace, letters and digits are treated as neither space, letter nor digit, and `upper` leaves them unchanged.
- The messages of the three `ValueError`s are not modelled. They become the constructors of `SeatError`.
- The dictionary keyed by text is modelled with `SeatId` keys. `SeatCode.Code` and `SeatCode.CodeInjective` relate the two.
- The process-global `SEATS` is modelled as one `Booking.SeatTable` object. There is no concurrency.
- Booking.SeatTable.IsFreeSeat: requires the seat to be in the table. For any other text, Python raises `KeyError`. Its callers always pass a code that `normalise_seat` accepted, and `Booking.NormalisedSeatIsInTable` shows that such a code is a key.
- Booking.SeatTable.BookSeat: requires the seat to be in the table (the `KeyError` case is not modelled), for the same reason.
- Booking.SeatTable.FreeSeat: requires the seat to be in the table (the `KeyError` case is not modelled), for the same reason.
