/** The seat-code validator `normalise_seat`, which both revisions share:
    strip, upper-case, digits followed by one letter, range check, storage check. */
module SeatCode {
  import opened PyStr
  import opened Decimal
  import opened SeatLayout

  datatype Result<T, E> = Success(value: T) | Failure(error: E)

  /** The three `ValueError`s that `normalise_seat` raises. */
  datatype SeatError =
    | Malformed               // not digits followed by one letter
    | OutOfRange              // row outside 1-80 or letter outside A-F
    | StorageArea(id: SeatId) // the seat is a storage place

  /** The canonical text f"{row}{letter}" of a seat, e.g. "12C". */
  function Code(id: SeatId): (r: string)
    requires ValidId(id)
    ensures |r| >= 2 && r[|r| - 1] == id.letter
  {
    Text(id.row) + [id.letter]
  }

  /** Different seats have different codes, so a table keyed by the code text
      and one keyed by SeatId hold the same entries. */
  lemma CodeInjective(a: SeatId, b: SeatId)
    requires ValidId(a) && ValidId(b) && Code(a) == Code(b)
    ensures a == b
  {
    assert Text(a.row) == Code(a)[..|Code(a)| - 1];
    assert Text(b.row) == Code(b)[..|Code(b)| - 1];
  }

  /** `code.strip().upper()`. */
  function Clean(raw: string): string {
    Upper(Strip(raw))
  }

  /** `normalise_seat(code)`, reading the storage status from the table seats
      (the global `SEATS` in one revision, `self.seats` in the other). */
  function Normalise(raw: string, seats: SeatMap): (r: Result<SeatId, SeatError>)
    requires AllSeats <= seats.Keys
    ensures r.Success? ==> ValidId(r.value) && r.value in seats && seats[r.value] != Storage
  {
    Resolve(Clean(raw), seats)
  }

  /** The checks `normalise_seat` makes once the text is stripped and
      upper-cased: digits then one letter, row and letter in range, not storage. */
  function Resolve(code: string, seats: SeatMap): (r: Result<SeatId, SeatError>)
    requires AllSeats <= seats.Keys
    ensures r.Success? ==> ValidId(r.value) && r.value in seats && seats[r.value] != Storage
  {
    if |code| == 0 || !IsAlpha(code[|code| - 1]) || !IsDigits(code[..|code| - 1]) then
      Failure(Malformed)
    else
      var id := SeatId(Value(code[..|code| - 1]), code[|code| - 1]);
      if !(FirstRow <= id.row <= LastRow) || id.letter !in Letters then
        Failure(OutOfRange)
      else
        InAllSeats(id);
        if seats[id] == Storage then Failure(StorageArea(id)) else Success(id)
  }

  /** The result depends on the table only through which seats are storage, so
      it is the same for every well-formed table, whatever has been booked. */
  lemma NormaliseIgnoresBookings(raw: string, m1: SeatMap, m2: SeatMap)
    requires WellFormed(m1) && WellFormed(m2)
    ensures Normalise(raw, m1) == Normalise(raw, m2)
  {
  }

  /** Upper-casing digits and a letter upper-cases only the letter. */
  lemma UpperDigitsLetter(d: string, c: char)
    requires AllDigits(d)
    ensures Upper(d + [c]) == d + [ToUpper(c)]
  {
    var s, t := d + [c], d + [ToUpper(c)];
    forall i | 0 <= i < |s| ensures Upper(s)[i] == t[i] {
      if i < |d| { assert s[i] == d[i]; }
    }
  }

  /** Digits followed by a letter neither start nor end with a space. */
  lemma DigitsThenLetter(d: string, c: char)
    requires IsDigits(d) && IsAlpha(c)
    ensures !IsSpace((d + [c])[0]) && !IsSpace((d + [c])[|d|])
  {
    assert (d + [c])[0] == d[0];
    assert IsDigit(d[0]);
  }

  /** Cleaning padded digits and a letter leaves the digits and the
      upper-cased letter. */
  lemma CleanPadded(w1: string, d: string, c: char, w2: string)
    requires AllSpace(w1) && AllSpace(w2)
    requires IsDigits(d) && IsAlpha(c)
    ensures Clean(w1 + d + [c] + w2) == d + [ToUpper(c)]
  {
    DigitsThenLetter(d, c);
    Associate(w1, d, [c], w2);
    StripPadded(w1, d + [c], w2);
    UpperDigitsLetter(d, c);
  }

  lemma Associate(a: string, b: string, c: string, d: string)
    ensures a + b + c + d == a + (b + c) + d
  {
  }

  /** Digits followed by a letter naming a seat resolve to that seat, or to the
      storage error when it is a storage place. */
  lemma ResolveDigitsLetter(d: string, l: char, seats: SeatMap)
    requires AllSeats <= seats.Keys
    requires IsDigits(d) && ValidId(SeatId(Value(d), l))
    ensures var id := SeatId(Value(d), l);
      Resolve(d + [l], seats) ==
        if seats[id] == Storage then Failure(StorageArea(id)) else Success(id)
  {
    var code := d + [l];
    assert code[..|code| - 1] == d;
    InAllSeats(SeatId(Value(d), l));
  }

  lemma Regroup(a: string, b: string, c: string, d: string, e: string)
    ensures a + b + c + d + e == a + (b + c) + d + e
  {
  }

  /** A padded, zero-prefixed spelling of a seat, cleaned, is zeros then the
      seat's code, and those zeros and row digits read back as the row. */
  lemma CleanSpelling(w1: string, k: nat, id: SeatId, c: char, w2: string)
    requires AllSpace(w1) && AllSpace(w2)
    requires ValidId(id) && ToUpper(c) == id.letter
    ensures IsDigits(Zeros(k) + Text(id.row)) && Value(Zeros(k) + Text(id.row)) == id.row
    ensures Clean(w1 + Zeros(k) + Text(id.row) + [c] + w2) == Zeros(k) + Text(id.row) + [id.letter]
  {
    SpellingShape(w1, k, id, c, w2);
    CleanPadded(w1, Zeros(k) + Text(id.row), c, w2);
  }

  lemma SpellingShape(w1: string, k: nat, id: SeatId, c: char, w2: string)
    requires ValidId(id) && ToUpper(c) == id.letter
    ensures IsDigits(Zeros(k) + Text(id.row)) && Value(Zeros(k) + Text(id.row)) == id.row
    ensures IsAlpha(c)
    ensures w1 + Zeros(k) + Text(id.row) + [c] + w2 == w1 + (Zeros(k) + Text(id.row)) + [c] + w2
  {
    ValueIgnoresLeadingZeros(k, Text(id.row));
    Regroup(w1, Zeros(k), Text(id.row), [c], w2);
  }

  /** Completeness: any padding with whitespace, any number of leading zeros and
      either case of the letter is accepted for a seat that is not storage, and
      resolves to that seat (" 12c " and "012C" both give 12C). */
  lemma NormaliseAccepts(w1: string, k: nat, id: SeatId, c: char, w2: string, seats: SeatMap)
    requires AllSeats <= seats.Keys
    requires AllSpace(w1) && AllSpace(w2)
    requires ValidId(id) && seats[id] != Storage && ToUpper(c) == id.letter
    ensures Normalise(w1 + Zeros(k) + Text(id.row) + [c] + w2, seats) == Success(id)
  {
    CleanSpelling(w1, k, id, c, w2);
    ResolveDigitsLetter(Zeros(k) + Text(id.row), id.letter, seats);
  }

  /** A resolved code is the seat's canonical code preceded only by zeros. */
  lemma ResolveOnlyCanonical(code: string, seats: SeatMap)
    requires AllSeats <= seats.Keys
    requires Resolve(code, seats).Success?
    ensures var id := Resolve(code, seats).value;
      |Code(id)| <= |code| && code == Zeros(|code| - |Code(id)|) + Code(id)
  {
    var id := Resolve(code, seats).value;
    var digits := code[..|code| - 1];
    ZerosThenText(digits);
    assert code == digits + [id.letter];
  }

  /** Soundness: an accepted code is, after stripping and upper-casing, the
      canonical code of the seat it resolves to, preceded only by zeros. */
  lemma NormaliseOnlyCanonical(raw: string, seats: SeatMap)
    requires AllSeats <= seats.Keys
    requires Normalise(raw, seats).Success?
    ensures var id := Normalise(raw, seats).value;
      |Code(id)| <= |Clean(raw)| &&
      Clean(raw) == Zeros(|Clean(raw)| - |Code(id)|) + Code(id)
  {
    ResolveOnlyCanonical(Clean(raw), seats);
  }

  /** Idempotence: normalising the canonical code of an accepted seat gives
      that seat again, so `normalise_seat(normalise_seat(s)) == normalise_seat(s)`. */
  lemma NormaliseIdempotent(raw: string, seats: SeatMap)
    requires AllSeats <= seats.Keys
    requires Normalise(raw, seats).Success?
    ensures Normalise(Code(Normalise(raw, seats).value), seats) == Normalise(raw, seats)
  {
    var id := Normalise(raw, seats).value;
    NormaliseCanonical(id, seats);
  }

  /** The canonical code of every seat that is not storage is accepted as is. */
  lemma NormaliseCanonical(id: SeatId, seats: SeatMap)
    requires AllSeats <= seats.Keys
    requires ValidId(id) && seats[id] != Storage
    ensures Normalise(Code(id), seats) == Success(id)
  {
    CleanCode(id);
    ResolveDigitsLetter(Text(id.row), id.letter, seats);
  }

  /** A canonical code is already stripped and upper-case. */
  lemma CleanCode(id: SeatId)
    requires ValidId(id)
    ensures Clean(Code(id)) == Code(id)
  {
    SpellingOfCode(id);
    CleanPadded([], Text(id.row), id.letter, []);
  }

  lemma SpellingOfCode(id: SeatId)
    requires ValidId(id)
    ensures [] + Text(id.row) + [id.letter] + [] == Code(id)
    ensures ToUpper(id.letter) == id.letter && IsAlpha(id.letter)
  {
  }

  /** Every padded or zero-prefixed spelling of a storage place is refused with
      the storage error ("77E", " 077f "). */
  lemma NormaliseRejectsStorage(w1: string, k: nat, id: SeatId, c: char, w2: string, seats: SeatMap)
    requires WellFormed(seats)
    requires AllSpace(w1) && AllSpace(w2)
    requires ValidId(id) && IsStorage(id) && ToUpper(c) == id.letter
    ensures Normalise(w1 + Zeros(k) + Text(id.row) + [c] + w2, seats) == Failure(StorageArea(id))
  {
    CleanSpelling(w1, k, id, c, w2);
    InAllSeats(id);
    ResolveDigitsLetter(Zeros(k) + Text(id.row), id.letter, seats);
  }

  /** The text s is some non-empty digits d followed by one letter c. */
  predicate SplitsAs(s: string, d: string, c: char) {
    s == d + [c] && IsDigits(d) && IsAlpha(c)
  }

  /** The format error is raised exactly when the cleaned text is not digits
      followed by one letter. */
  lemma NormaliseMalformed(raw: string, seats: SeatMap)
    requires AllSeats <= seats.Keys
    ensures Normalise(raw, seats) == Failure(Malformed) <==>
      !exists d, c :: SplitsAs(Clean(raw), d, c)
  {
    ResolveMalformed(Clean(raw), seats);
  }

  lemma ResolveMalformed(s: string, seats: SeatMap)
    requires AllSeats <= seats.Keys
    ensures Resolve(s, seats) == Failure(Malformed) <==> !exists d, c :: SplitsAs(s, d, c)
  {
    forall d, c | SplitsAs(s, d, c)
      ensures |s| > 0 && IsAlpha(s[|s| - 1]) && IsDigits(s[..|s| - 1])
    {
      assert s[..|s| - 1] == d;
    }
    if |s| > 0 && IsAlpha(s[|s| - 1]) && IsDigits(s[..|s| - 1]) {
      assert s == s[..|s| - 1] + [s[|s| - 1]];
      assert SplitsAs(s, s[..|s| - 1], s[|s| - 1]);
    }
  }

  /** A text that, once cleaned, has fewer than two characters (the empty
      string, blanks, a letter without a row such as "C") is malformed. */
  lemma NormaliseRejectsShort(raw: string, seats: SeatMap)
    requires AllSeats <= seats.Keys
    requires |Clean(raw)| < 2
    ensures Normalise(raw, seats) == Failure(Malformed)
  {
  }

  /** Digits followed by a letter, but naming no seat of the aircraft (row 0,
      row 81, letter G or Z, as in "0Z"), is out of range. */
  lemma NormaliseRejectsOutOfRange(raw: string, digits: string, c: char, seats: SeatMap)
    requires AllSeats <= seats.Keys
    requires Clean(raw) == digits + [c] && IsDigits(digits) && IsAlpha(c)
    requires !(FirstRow <= Value(digits) <= LastRow) || c !in Letters
    ensures Normalise(raw, seats) == Failure(OutOfRange)
  {
    var code := Clean(raw);
    assert code[..|code| - 1] == digits;
  }

  lemma SpellingsOfTwelveC()
    ensures " 12c " == [' '] + Zeros(0) + Text(12) + ['c'] + [' ']
    ensures "012C" == [] + Zeros(1) + Text(12) + ['C'] + []
    ensures Code(SeatId(12, 'C')) == "12C"
  {
    assert Text(12) == "12";
    assert Zeros(0) == [] && Zeros(1) == "0";
  }

  /** The docstring example: " 12c " normalises to 12C. */
  lemma PaddedLowerCaseExample(seats: SeatMap)
    requires AllSeats <= seats.Keys && seats[SeatId(12, 'C')] != Storage
    ensures Normalise(" 12c ", seats) == Success(SeatId(12, 'C'))
    ensures Code(SeatId(12, 'C')) == "12C"
  {
    SpellingsOfTwelveC();
    NormaliseAccepts([' '], 0, SeatId(12, 'C'), 'c', [' '], seats);
  }

  /** A leading zero is dropped: "012C" normalises to 12C. */
  lemma LeadingZeroExample(seats: SeatMap)
    requires AllSeats <= seats.Keys && seats[SeatId(12, 'C')] != Storage
    ensures Normalise("012C", seats) == Success(SeatId(12, 'C'))
  {
    SpellingsOfTwelveC();
    NormaliseAccepts([], 1, SeatId(12, 'C'), 'C', [], seats);
  }
}
