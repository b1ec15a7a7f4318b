/**
 * The hall service (internal/services/hall_service.go): seat-layout generation and
 * the find / create / update / delete decision chains.
 */
module HallService {
  import opened Wrappers
  import opened Errors
  import opened UserModel
  import opened SeatModel
  import opened HallModel
  import opened TheaterModel
  import opened ServiceCommon

  // ----- newSeating -----

  /** Go's `string(rune(x))`: the code point's one-character string, or U+FFFD when `x` is not a Unicode scalar value. */
  function RuneString(x: int): (s: string)
    ensures |s| == 1
  {
    if 0 <= x < 0xD800 || 0xE000 <= x <= 0x10FFFF then [x as char] else ['�']
  }

  /**
   * Seat `i` of a layout with `seatsPerRow` seats a row. For the non-negative `i`
   * used here Dafny's `/` and `%` agree with Go's truncating operators.
   */
  function SeatAt(i: nat, seatsPerRow: int): Seat
    requires seatsPerRow != 0
  {
    Seat(0, RuneString('A' as int + i / seatsPerRow), i % seatsPerRow, 0, 0, 0)
  }

  /**
   * The layout `newSeating(rows, seatsPerRow)` returns: `rows * seatsPerRow` seats,
   * seat `i` in row letter 'A' + i / seatsPerRow with number i % seatsPerRow. A
   * negative product makes `make` panic.
   */
  function SeatingOf(rows: int, seatsPerRow: int): (r: Run<Seating>)
    ensures r.Panics? <==> rows * seatsPerRow < 0
    ensures r.Returns? ==> Capacity(r.value) == rows * seatsPerRow && r.value.version == 0
    ensures r.Returns? && seatsPerRow != 0 ==> forall i :: 0 <= i < |r.value.seats| ==> r.value.seats[i] == SeatAt(i, seatsPerRow)
  {
    if rows * seatsPerRow < 0 then Panics
    else if seatsPerRow == 0 then Returns(Seating(0, []))
    else Returns(Seating(0, seq(rows * seatsPerRow, i requires 0 <= i => SeatAt(i, seatsPerRow))))
  }

  /** `newSeating`: allocates the seats and fills them in array order. */
  method NewSeating(rows: int, seatsPerRow: int) returns (r: Run<Seating>)
    ensures r == SeatingOf(rows, seatsPerRow)
  {
    if rows * seatsPerRow < 0 {
      return Panics;
    }
    var n := rows * seatsPerRow;
    var seats := new Seat[n](_ => Seat(0, "", 0, 0, 0, 0));
    for i := 0 to n
      invariant seatsPerRow != 0 || n == 0
      invariant forall k :: 0 <= k < i ==> seats[k] == SeatAt(k, seatsPerRow)
      invariant forall k :: i <= k < n ==> seats[k] == Seat(0, "", 0, 0, 0, 0)
    {
      seats[i] := seats[i].(row := RuneString('A' as int + i / seatsPerRow), seatNumber := i % seatsPerRow);
    }
    r := Returns(Seating(0, seats[..]));
    if seatsPerRow != 0 {
      assert seats[..] == seq(n, i requires 0 <= i => SeatAt(i, seatsPerRow));
    }
  }

  /** Layouts whose row letters stay below the surrogate block, so that each row's letter is its own code point. */
  predicate PlainLetters(rows: int, seatsPerRow: int)
  {
    rows >= 0 && seatsPerRow > 0 && 'A' as int + rows <= 0xD800
  }

  /** Seat numbers lie in [0, seatsPerRow) and row letters run from 'A' up to the last row's. */
  lemma SeatBounds(rows: int, seatsPerRow: int, i: nat)
    requires PlainLetters(rows, seatsPerRow) && i < rows * seatsPerRow
    ensures 0 <= SeatAt(i, seatsPerRow).seatNumber < seatsPerRow
    ensures 'A' <= SeatAt(i, seatsPerRow).row[0] && SeatAt(i, seatsPerRow).row[0] as int < 'A' as int + rows
  {
    RowIndexBound(i, rows, seatsPerRow);
  }

  lemma RowIndexBound(i: nat, rows: nat, seatsPerRow: int)
    requires seatsPerRow > 0 && i < rows * seatsPerRow
    ensures i / seatsPerRow < rows
  {
    assert (i / seatsPerRow) * seatsPerRow <= i;
    if i / seatsPerRow >= rows {
      assert false;
    }
  }

  /** No two seats of a layout share both row letter and seat number. */
  lemma SeatsDistinct(rows: int, seatsPerRow: int, i: nat, j: nat)
    requires PlainLetters(rows, seatsPerRow) && i < rows * seatsPerRow && j < rows * seatsPerRow && i != j
    ensures SeatAt(i, seatsPerRow).row != SeatAt(j, seatsPerRow).row
      || SeatAt(i, seatsPerRow).seatNumber != SeatAt(j, seatsPerRow).seatNumber
  {
    RowIndexBound(i, rows, seatsPerRow);
    RowIndexBound(j, rows, seatsPerRow);
    if i / seatsPerRow == j / seatsPerRow {
      assert i == (i / seatsPerRow) * seatsPerRow + i % seatsPerRow;
      assert j == (j / seatsPerRow) * seatsPerRow + j % seatsPerRow;
    } else {
      assert SeatAt(i, seatsPerRow).row[0] != SeatAt(j, seatsPerRow).row[0];
    }
  }

  /** Row letters never decrease along the array: the layout is row-major. */
  lemma RowsNonDecreasing(rows: int, seatsPerRow: int, i: nat, j: nat)
    requires PlainLetters(rows, seatsPerRow) && i <= j < rows * seatsPerRow
    ensures SeatAt(i, seatsPerRow).row[0] <= SeatAt(j, seatsPerRow).row[0]
  {
    RowIndexBound(j, rows, seatsPerRow);
    DivMonotone(i, j, seatsPerRow);
  }

  /**
   * Without `PlainLetters` both lemmas above fail: rows 55231 and 55232 of a
   * one-seat-a-row layout fall in the surrogate block, so both become U+FFFD and
   * seats 55231 and 55232 coincide.
   */
  lemma SeatsCollideBeyondLetters()
    ensures SeatAt(55231, 1) == SeatAt(55232, 1)
    ensures SeatAt(55231, 1).row == ['\U{FFFD}'] && SeatAt(55231, 1).seatNumber == 0
  {
  }

  /** Past the surrogate block the row letters drop: row 57279 is U+E000, below the U+FFFD before it. */
  lemma RowsDropBeyondLetters()
    ensures SeatAt(57279, 1).row[0] < SeatAt(55231, 1).row[0]
  {
  }

  lemma DivMonotone(i: nat, j: nat, d: int)
    requires i <= j && d > 0
    ensures i / d <= j / d
  {
    assert (i / d) * d <= i && j < (j / d + 1) * d;
    if i / d > j / d {
      assert false;
    }
  }

  // ----- The decision chains -----

  /** `HallService.Find`: a missing hall becomes ErrHallNotFound, other lookup errors pass through. */
  function Find(found: Fetch<Hall>): (r: Result<Hall, Error>)
    ensures r.Success? <==> found.Fetched?
    ensures found.Fetched? ==> r.value == found.value
    ensures found.FetchFailed? && Is(found.err, NotFound) ==> r == Failure(HallNotFound)
    ensures found.FetchFailed? && !Is(found.err, NotFound) ==> r == Failure(found.err)
    ensures r.Failure? ==> !Is(r.error, NotFound)
  {
    match found
    case Fetched(hall) => Success(hall)
    case FetchFailed(err) => Failure(Classify(err, NotFound, HallNotFound))
  }

  /** The hall the create chain hands to the store: managed by the caller, with its new layout. */
  function NewHall(user: User, theaterId: int, name: string, code: string, seating: Seating): Hall
  {
    Hall(0, theaterId, user.id, name, code, 0, 0, Some(seating))
  }

  /**
   * `HallService.Create`. `theater` is the theater lookup and `stored` the store's
   * answer to the insert. The layout is built before the insert, so a negative
   * seat count panics there.
   */
  function Create(user: User, theaterId: int, name: string, code: string, rows: int, seatsPerRow: int,
                  theater: Fetch<Theater>, stored: Option<Error>): (r: Run<Reply<Hall, Hall>>)
    ensures theater.FetchFailed? ==> r == Returns(Reply(Failure(Classify(theater.err, NotFound, TheaterNotFound)), None))
    ensures theater.Fetched? && !IsTheaterManagerOrAdmin(user, theater.value) ==>
      r.Returns? && r.value.write.None? && r.value.result.Failure? && Is(r.value.result.error, Unauthorized)
    ensures r.Panics? <==> theater.Fetched? && IsTheaterManagerOrAdmin(user, theater.value) && rows * seatsPerRow < 0
    ensures r.Returns? && r.value.write.Some? ==>
      var hall := r.value.write.value;
      theater.Fetched? && IsTheaterManagerOrAdmin(user, theater.value)
      && hall.theaterId == theaterId && hall.managerId == user.id && hall.name == name && hall.code == code
      && hall.seating.Some? && Capacity(hall.seating.value) == rows * seatsPerRow
    ensures r.Returns? && r.value.write.Some? ==>
      r.value.result == (if stored.None? then Success(r.value.write.value)
                         else Failure(Classify(stored.value, Duplicate, ServiceDuplicate)))
  {
    match theater
    case FetchFailed(err) => Returns(Reply(Failure(Classify(err, NotFound, TheaterNotFound)), None))
    case Fetched(t) =>
      if !IsTheaterManagerOrAdmin(user, t) then
        Returns(Reply(Failure(Wrapped(Unauthorized, "creating halls")), None))
      else
        match SeatingOf(rows, seatsPerRow)
        case Panics => Panics
        case Returns(seating) =>
          var hall := NewHall(user, theaterId, name, code, seating);
          if stored.Some? then Returns(Reply(Failure(Classify(stored.value, Duplicate, ServiceDuplicate)), Some(hall)))
          else Returns(Reply(Success(hall), Some(hall)))
  }

  /**
   * `HallService.Update`: looks the hall up, checks the caller, overwrites the name
   * when one is given and hands the hall to the store.
   */
  method Update(user: User, newName: Option<string>, found: Fetch<Hall>, stored: Option<Error>)
    returns (r: Reply<Hall, Hall>)
    ensures found.FetchFailed? ==> r == Reply(Failure(Classify(found.err, NotFound, HallNotFound)), None)
    ensures found.Fetched? && !IsHallManagerOrAdmin(user, found.value) ==>
      r.write.None? && r.result.Failure? && Is(r.result.error, Unauthorized)
    ensures r.write.Some? <==> found.Fetched? && IsHallManagerOrAdmin(user, found.value)
    ensures r.write.Some? ==>
      r.write.value.name == (if newName.Some? then newName.value else found.value.name)
      && r.write.value.(name := found.value.name) == found.value
    ensures r.write.Some? && stored.None? ==> r.result == Success(r.write.value)
    ensures r.write.Some? && stored.Some? ==>
      r.result == Failure(if Is(stored.value, EditConflict) || Is(stored.value, Duplicate) then ServiceEditConflict else stored.value)
  {
    if found.FetchFailed? {
      return Reply(Failure(Classify(found.err, NotFound, HallNotFound)), None);
    }
    var hall := found.value;
    if !IsHallManagerOrAdmin(user, hall) {
      return Reply(Failure(Wrapped(Unauthorized, "updating halls")), None);
    }
    if newName.Some? {
      hall := hall.(name := newName.value);
    }
    if stored.Some? {
      var err := stored.value;
      if Is(err, EditConflict) || Is(err, Duplicate) {
        return Reply(Failure(ServiceEditConflict), Some(hall));
      }
      return Reply(Failure(err), Some(hall));
    }
    return Reply(Success(hall), Some(hall));
  }

  /**
   * `HallService.Delete`: authorises against the theater, then deletes by code. The
   * write is the code handed to `DeleteByCode`, which is not scoped to the theater.
   */
  function Delete(user: User, hallCode: string, theater: Fetch<Theater>, deleted: Option<Error>): (r: Reply<(), string>)
    ensures theater.FetchFailed? ==> r == Reply(Failure(Classify(theater.err, NotFound, TheaterNotFound)), None)
    ensures theater.Fetched? && !IsTheaterManagerOrAdmin(user, theater.value) ==>
      r.write.None? && r.result.Failure? && Is(r.result.error, Unauthorized)
    ensures r.write.Some? <==> theater.Fetched? && IsTheaterManagerOrAdmin(user, theater.value)
    ensures r.write.Some? ==> (r.write.value == hallCode
      && r.result == (if deleted.None? then Success(()) else Failure(Classify(deleted.value, NotFound, HallNotFound))))
  {
    match theater
    case FetchFailed(err) => Reply(Failure(Classify(err, NotFound, TheaterNotFound)), None)
    case Fetched(t) =>
      if !IsTheaterManagerOrAdmin(user, t) then Reply(Failure(Wrapped(Unauthorized, "removing halls")), None)
      else if deleted.Some? then Reply(Failure(Classify(deleted.value, NotFound, HallNotFound)), Some(hallCode))
      else Reply(Success(()), Some(hallCode))
  }

  /**
   * An admin reaches the store in every chain, whoever manages the theater or hall:
   * create (unless the layout panics), update (whose write is given exactly when
   * the caller passes the hall check) and delete.
   */
  lemma AdminReachesStore(user: User, theaterId: int, name: string, code: string, rows: int, seatsPerRow: int,
                          theater: Theater, hall: Hall, hallCode: string, stored: Option<Error>, deleted: Option<Error>)
    requires user.role == "admin"
    ensures rows * seatsPerRow >= 0 ==> Create(user, theaterId, name, code, rows, seatsPerRow, Fetched(theater), stored).value.write.Some?
    ensures IsHallManagerOrAdmin(user, hall)
    ensures Delete(user, hallCode, Fetched(theater), deleted).write == Some(hallCode)
  {
    if rows * seatsPerRow >= 0 {
      CreatedHallSeating(user, theaterId, name, code, rows, seatsPerRow, theater, stored);
    }
  }

  /** A created hall's layout is the one newSeating builds, so it seats rows * seatsPerRow. */
  lemma CreatedHallSeating(user: User, theaterId: int, name: string, code: string, rows: int, seatsPerRow: int,
                           theater: Theater, stored: Option<Error>)
    requires IsTheaterManagerOrAdmin(user, theater) && rows * seatsPerRow >= 0
    ensures Create(user, theaterId, name, code, rows, seatsPerRow, Fetched(theater), stored).value.write
      == Some(NewHall(user, theaterId, name, code, SeatingOf(rows, seatsPerRow).value))
  {
  }
}
