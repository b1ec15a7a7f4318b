/**
 * The show service (internal/services/show_service.go): the create, find and
 * delete decision chains.
 */
module ShowService {
  import opened Wrappers
  import opened Errors
  import opened UserModel
  import opened ShowModel
  import opened HallModel
  import opened TheaterModel
  import opened MovieModel
  import opened ServiceCommon

  datatype CreateShowInput = CreateShowInput(movieId: string, hallCode: string, start: int, end: int)

  /** The show handed to the store: the input's hall code and times, the hall's theater, the movie's IMDb id. */
  function ShowFor(input: CreateShowInput, hall: Hall, movie: Movie): Show
  {
    Show(0, hall.theaterId, 0, input.hallCode, movie.imdbId, "", "", input.start, input.end, 0, 0)
  }

  /**
   * `ShowService.Create`. `hall` is the hall lookup, `movie` the movie service's
   * answer, `parseDuration` stands for `time.ParseDuration` and `stored` is the
   * store's answer to the insert, which is returned as it is. Nothing checks the
   * hall's schedule.
   */
  function Create(user: User, input: CreateShowInput, hall: Fetch<Hall>, movie: Fetch<Movie>,
                  parseDuration: string -> Option<int>, stored: Option<Error>): (r: Run<Reply<(), Show>>)
    ensures hall.FetchFailed? && Is(hall.err, NotFound) ==> r == Returns(Reply(Failure(HallNotFound), None))
    ensures hall.FetchFailed? && !Is(hall.err, NotFound) ==> r == Returns(Reply(Success(()), None))
    ensures hall.Fetched? && !IsHallManagerOrAdmin(user, hall.value) ==>
      r.Returns? && r.value.write.None? && r.value.result.Failure? && Is(r.value.result.error, Unauthorized)
    ensures hall.Fetched? && IsHallManagerOrAdmin(user, hall.value) && movie.FetchFailed? ==>
      r == Returns(Reply(Failure(Classify(movie.err, NotFound, MovieNotFound)), None))
    ensures r.Panics? <==> (hall.Fetched? && IsHallManagerOrAdmin(user, hall.value)
      && movie.Fetched? && parseDuration(movie.value.runtime).None?)
    ensures r.Returns? && r.value.write.Some? ==>
      hall.Fetched? && movie.Fetched? && parseDuration(movie.value.runtime).Some?
      && input.end - input.start >= parseDuration(movie.value.runtime).value
      && r.value.write.value == ShowFor(input, hall.value, movie.value)
      && r.value.result == (if stored.None? then Success(()) else Failure(stored.value))
  {
    match hall
    case FetchFailed(err) => Returns(Reply(if Is(err, NotFound) then Failure(HallNotFound) else Success(()), None))
    case Fetched(h) =>
      if !IsHallManagerOrAdmin(user, h) then Returns(Reply(Failure(Wrapped(Unauthorized, "creating shows")), None))
      else match movie
        case FetchFailed(err) => Returns(Reply(Failure(Classify(err, NotFound, MovieNotFound)), None))
        case Fetched(m) =>
          match parseDuration(m.runtime)
          case None => Panics
          case Some(runtime) =>
            if input.end - input.start < runtime then
              Returns(Reply(Failure(Wrapped(InvalidShowDuration, m.runtime)), None))
            else
              Returns(Reply(if stored.None? then Success(()) else Failure(stored.value), Some(ShowFor(input, h, m))))
  }

  /**
   * The duration floor: with the hall and movie found and the caller allowed, a
   * window shorter than the runtime is refused with ErrInvalidShowDuration and one
   * exactly as long as the runtime reaches the store.
   */
  lemma DurationFloor(user: User, input: CreateShowInput, hall: Hall, movie: Movie,
                      parseDuration: string -> Option<int>, stored: Option<Error>)
    requires IsHallManagerOrAdmin(user, hall) && parseDuration(movie.runtime).Some?
    ensures var r := Create(user, input, Fetched(hall), Fetched(movie), parseDuration, stored);
      r.Returns? && (r.value.write.Some? <==> input.end - input.start >= parseDuration(movie.runtime).value)
    ensures var r := Create(user, input, Fetched(hall), Fetched(movie), parseDuration, stored);
      input.end - input.start < parseDuration(movie.runtime).value ==> Is(r.value.result.error, InvalidShowDuration)
  {
  }

  /** Refusals before the movie lookup do not depend on the movie at all. */
  lemma RefusalIgnoresMovie(user: User, input: CreateShowInput, hall: Fetch<Hall>, movie1: Fetch<Movie>,
                            movie2: Fetch<Movie>, parseDuration: string -> Option<int>, stored: Option<Error>)
    requires hall.FetchFailed? || !IsHallManagerOrAdmin(user, hall.value)
    ensures Create(user, input, hall, movie1, parseDuration, stored) == Create(user, input, hall, movie2, parseDuration, stored)
  {
  }

  /**
   * No collision check: the show of the schedule test's "collision" case, three hours
   * on Dec 6 over the 12:00-15:00 screening, reaches the store although `IsFree`
   * rejects it.
   */
  lemma CollidingShowIsStored(user: User, hall: Hall, movie: Movie, parseDuration: string -> Option<int>,
                              stored: Option<Error>)
    requires IsHallManagerOrAdmin(user, hall) && parseDuration(movie.runtime) == Some(2 * Hour)
    ensures var input := CreateShowInput(movie.imdbId, hall.code, At(6, 14), At(6, 17));
      Create(user, input, Fetched(hall), Fetched(movie), parseDuration, stored).value.write
        == Some(ShowFor(input, hall, movie))
      && IsFree(TestSchedule(), ShowFor(input, hall, movie)).Some?
  {
    var input := CreateShowInput(movie.imdbId, hall.code, At(6, 14), At(6, 17));
    ReportsFirstConflict(TestSchedule(), ShowFor(input, hall, movie), 1);
  }

  /**
   * The create chain as evidently intended: a hall lookup that fails for another
   * reason than not-found is reported instead of being turned into success.
   */
  function CreateReportingLookupErrors(user: User, input: CreateShowInput, hall: Fetch<Hall>, movie: Fetch<Movie>,
                                       parseDuration: string -> Option<int>, stored: Option<Error>): (r: Run<Reply<(), Show>>)
    ensures hall.FetchFailed? ==> r == Returns(Reply(Failure(Classify(hall.err, NotFound, HallNotFound)), None))
    ensures r.Returns? && r.value.result.Success? ==> hall.Fetched? && r.value.write.Some?
    ensures hall.Fetched? ==> r == Create(user, input, hall, movie, parseDuration, stored)
  {
    match hall
    case FetchFailed(err) => Returns(Reply(Failure(Classify(err, NotFound, HallNotFound)), None))
    case Fetched(_) => Create(user, input, hall, movie, parseDuration, stored)
  }

  /** As written, a failed hall lookup (a dropped connection, say) reports success although no show was stored. */
  lemma LookupFailureReportsSuccess(user: User, input: CreateShowInput, movie: Fetch<Movie>,
                                    parseDuration: string -> Option<int>, stored: Option<Error>)
    ensures var r := Create(user, input, FetchFailed(Other("connection refused")), movie, parseDuration, stored);
      r == Returns(Reply(Success(()), None))
  {
  }

  /** `ShowService.Find`: a show of another theater is reported as not found. */
  function Find(theaterId: int, found: Fetch<Show>): (r: Result<Show, Error>)
    ensures r.Success? <==> found.Fetched? && found.value.theaterId == theaterId
    ensures r.Success? ==> r.value == found.value
    ensures found.Fetched? && found.value.theaterId != theaterId ==> r == Failure(ShowNotFound)
    ensures found.FetchFailed? ==> r == Failure(Classify(found.err, NotFound, ShowNotFound))
    ensures r.Failure? ==> !Is(r.error, NotFound)
  {
    match found
    case FetchFailed(err) => Failure(Classify(err, NotFound, ShowNotFound))
    case Fetched(show) => if show.theaterId != theaterId then Failure(ShowNotFound) else Success(show)
  }

  /**
   * `ShowService.Delete`: theater lookup, then the caller, then the delete. The
   * write is the show id handed to the store.
   */
  function Delete(user: User, showId: int, theater: Fetch<Theater>, deleted: Option<Error>): (r: Reply<(), int>)
    ensures theater.FetchFailed? ==> r == Reply(Failure(Classify(theater.err, NotFound, TheaterNotFound)), None)
    ensures theater.Fetched? && !IsTheaterManagerOrAdmin(user, theater.value) ==>
      r.write.None? && r.result.Failure? && Is(r.result.error, Unauthorized)
    ensures r.write.Some? <==> theater.Fetched? && IsTheaterManagerOrAdmin(user, theater.value)
    ensures r.write.Some? ==> (r.write.value == showId
      && r.result == (if deleted.None? then Success(()) else Failure(Classify(deleted.value, NotFound, ShowNotFound))))
  {
    match theater
    case FetchFailed(err) => Reply(Failure(Classify(err, NotFound, TheaterNotFound)), None)
    case Fetched(t) =>
      if !IsTheaterManagerOrAdmin(user, t) then Reply(Failure(Wrapped(Unauthorized, "deleting shows")), None)
      else if deleted.Some? then Reply(Failure(Classify(deleted.value, NotFound, ShowNotFound)), Some(showId))
      else Reply(Success(()), Some(showId))
  }

  /** The delete chain's checks come in order: a missing theater hides the caller's rights and the show's existence. */
  lemma DeleteCheckOrder(user: User, showId: int, err: Error, deleted: Option<Error>)
    requires Is(err, NotFound)
    ensures Delete(user, showId, FetchFailed(err), deleted).result == Failure(TheaterNotFound)
  {
  }
}
