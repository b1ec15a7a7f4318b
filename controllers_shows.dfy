/**
 * The show handlers (internal/controllers/shows.go): the create input's checks and
 * the mapping of service errors to HTTP statuses.
 */
module ShowHandlers {
  import opened Wrappers
  import opened Errors
  import opened Validator
  import opened Regex
  import opened UserModel
  import opened ShowModel
  import opened HallModel
  import opened MovieModel
  import opened TheaterModel
  import opened HttpUtil
  import ShowService
  import ServiceCommon

  /** The hall-code rules: required, letters and digits only, at most 10 bytes. */
  predicate HallCodeOk(code: string)
  {
    ByteLen(TrimSpace(code)) > 0 && AlphanumRX(code) && ByteLen(code) <= 10
  }

  /** `CreateShowInput.Validate`, as written: the duration check asks for a zero-length show. */
  function ValidateCreateShow(hallCode: string, start: int, end: int): (errs: Validator.Errors)
    ensures errs <= {"hall_code", "start_time", "duration"}
    ensures "hall_code" in errs <==> !HallCodeOk(hallCode)
    ensures "start_time" in errs <==> !(start < end)
    ensures "duration" in errs <==> end - start != 0
  {
    var v0: Validator.Errors := {};
    var v1 := Check(v0, ByteLen(TrimSpace(hallCode)) > 0, "hall_code");
    var v2 := Check(v1, AlphanumRX(hallCode), "hall_code");
    var v3 := Check(v2, ByteLen(hallCode) <= 10, "hall_code");
    var v4 := Check(v3, start < end, "start_time");
    Check(v4, end - start == 0, "duration")
  }

  /** No input passes: a show must start before it ends and also last zero time. */
  lemma CreateShowNeverValid(hallCode: string, start: int, end: int)
    ensures "start_time" in ValidateCreateShow(hallCode, start, end) || "duration" in ValidateCreateShow(hallCode, start, end)
  {
  }

  /**
   * The checks as evidently intended by the duration message ("must be in hours"):
   * the show lasts a whole number of hours.
   */
  function ValidateCreateShowInHours(hallCode: string, start: int, end: int): (errs: Validator.Errors)
    ensures errs <= {"hall_code", "start_time", "duration"}
    ensures "hall_code" in errs <==> !HallCodeOk(hallCode)
    ensures "start_time" in errs <==> !(start < end)
    ensures "duration" in errs <==> (end - start) % Hour != 0
  {
    var v0: Validator.Errors := {};
    var v1 := Check(v0, ByteLen(TrimSpace(hallCode)) > 0, "hall_code");
    var v2 := Check(v1, AlphanumRX(hallCode), "hall_code");
    var v3 := Check(v2, ByteLen(hallCode) <= 10, "hall_code");
    var v4 := Check(v3, start < end, "start_time");
    Check(v4, (end - start) % Hour == 0, "duration")
  }

  /** The corrected checks accept a valid hall code with a show of a whole number of hours. */
  lemma WholeHoursAccepted(hallCode: string, start: int, hours: nat)
    requires HallCodeOk(hallCode) && hours > 0
    ensures ValidateCreateShowInHours(hallCode, start, start + hours * Hour) == {}
  {
    assert (hours * Hour) % Hour == 0;
  }

  /** A three-hour show in hall "H1" passes the corrected checks. */
  lemma ThreeHourShowAccepted()
    ensures ValidateCreateShowInHours("H1", At(6, 12), At(6, 15)) == {}
  {
    assert AllIn("H1", Alnum);
    assert TrimSpace("H1") == "H1";
    WholeHoursAccepted("H1", At(6, 12), 3);
  }

  /** The create handler's switch over the service's error. */
  function CreateShowStatus(err: Error): (status: int)
    ensures Is(err, HallNotFound) || Is(err, MovieNotFound) ==> status == StatusNotFound
    ensures !Is(err, HallNotFound) && !Is(err, MovieNotFound) && Is(err, Unauthorized) ==> status == StatusForbidden
    ensures !Is(err, HallNotFound) && !Is(err, MovieNotFound) && !Is(err, Unauthorized) && Is(err, InvalidShowDuration) ==>
      status == StatusBadRequest
    ensures status == StatusInternalServerError <==>
      !Is(err, HallNotFound) && !Is(err, MovieNotFound) && !Is(err, Unauthorized) && !Is(err, InvalidShowDuration)
  {
    if Is(err, HallNotFound) || Is(err, MovieNotFound) then StatusNotFound
    else if Is(err, Unauthorized) then StatusForbidden
    else if Is(err, InvalidShowDuration) then StatusBadRequest
    else StatusInternalServerError
  }

  /**
   * The create handler, with the corrected checks: the input's checks, then the
   * service. `served` is the service's answer, used only when the checks pass.
   */
  function CreateShow(hallCode: string, start: int, end: int, served: Option<Error>): (r: Handled<(string, int, int)>)
    ensures r.write.Some? <==> ValidateCreateShowInHours(hallCode, start, end) == {}
    ensures r.write.None? ==> r.status == StatusBadRequest
    ensures r.write.Some? ==> r.status == (if served.None? then StatusCreated else CreateShowStatus(served.value))
  {
    if ValidateCreateShowInHours(hallCode, start, end) != {} then Handled(StatusBadRequest, None)
    else Handled(if served.None? then StatusCreated else CreateShowStatus(served.value), Some((hallCode, start, end)))
  }

  /** The statuses the create chain's refusals get, end to end through the (corrected) service. */
  lemma CreateShowRefusalStatuses(user: User, input: ShowService.CreateShowInput, hall: Fetch<Hall>, movie: Fetch<Movie>,
                                  parseDuration: string -> Option<int>, stored: Option<Error>)
    requires ShowService.CreateReportingLookupErrors(user, input, hall, movie, parseDuration, stored).Returns?
    ensures var r := ShowService.CreateReportingLookupErrors(user, input, hall, movie, parseDuration, stored).value;
      hall.FetchFailed? && Is(hall.err, NotFound) ==> CreateShowStatus(r.result.error) == StatusNotFound
    ensures var r := ShowService.CreateReportingLookupErrors(user, input, hall, movie, parseDuration, stored).value;
      hall.Fetched? && !ServiceCommon.IsHallManagerOrAdmin(user, hall.value) ==>
        CreateShowStatus(r.result.error) == StatusForbidden
    ensures var r := ShowService.CreateReportingLookupErrors(user, input, hall, movie, parseDuration, stored).value;
      hall.Fetched? && ServiceCommon.IsHallManagerOrAdmin(user, hall.value) && movie.FetchFailed? && Is(movie.err, NotFound) ==>
        CreateShowStatus(r.result.error) == StatusNotFound
    ensures var r := ShowService.CreateReportingLookupErrors(user, input, hall, movie, parseDuration, stored).value;
      r.result.Failure? && Is(r.result.error, InvalidShowDuration) ==> CreateShowStatus(r.result.error) == StatusBadRequest
  {
    var r := ShowService.CreateReportingLookupErrors(user, input, hall, movie, parseDuration, stored).value;
    if r.result.Failure? {
      IsMeansRoot(r.result.error, HallNotFound);
      IsMeansRoot(r.result.error, MovieNotFound);
      IsMeansRoot(r.result.error, Unauthorized);
      IsMeansRoot(r.result.error, InvalidShowDuration);
    }
  }

  /** The get handler: a missing show (or one of another theater) is 404, anything else 500. */
  function GetShowStatus(err: Error): (status: int)
    ensures status == StatusNotFound <==> Is(err, ShowNotFound)
    ensures status == StatusInternalServerError <==> !Is(err, ShowNotFound)
  {
    if Is(err, ShowNotFound) then StatusNotFound else StatusInternalServerError
  }

  /** Asking for a show under the wrong theater answers 404. */
  lemma ShowOfOtherTheaterGets404(theaterId: int, show: Show)
    requires show.theaterId != theaterId
    ensures GetShowStatus(ShowService.Find(theaterId, Fetched(show)).error) == StatusNotFound
  {
  }

  /** The delete handler's switch: an unauthorised caller gets 409, not the 403 used elsewhere. */
  function DeleteShowStatus(err: Error): (status: int)
    ensures Is(err, Unauthorized) ==> status == StatusConflict
    ensures !Is(err, Unauthorized) && (Is(err, TheaterNotFound) || Is(err, ShowNotFound)) ==> status == StatusNotFound
    ensures status == StatusInternalServerError <==>
      !Is(err, Unauthorized) && !Is(err, TheaterNotFound) && !Is(err, ShowNotFound)
  {
    if Is(err, Unauthorized) then StatusConflict
    else if Is(err, TheaterNotFound) || Is(err, ShowNotFound) then StatusNotFound
    else StatusInternalServerError
  }

  /** A caller who neither manages the theater nor is an admin is answered 409 Conflict. */
  lemma NonOwnerDeleteGets409(user: User, showId: int, theater: Theater, deleted: Option<Error>)
    requires theater.managerId != user.id && user.role != "admin"
    ensures DeleteShowStatus(ShowService.Delete(user, showId, Fetched(theater), deleted).result.error) == StatusConflict
  {
  }
}
