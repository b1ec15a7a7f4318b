/**
 * The hall handlers (internal/controllers/halls.go): the input checks, the fixed
 * messages for a body that does not bind, and the mapping of service errors to
 * HTTP statuses.
 */
module HallHandlers {
  import opened Wrappers
  import opened Errors
  import opened Validator
  import opened Regex
  import opened UserModel
  import opened HallModel
  import opened TheaterModel
  import opened HttpUtil
  import HallService
  import ServiceCommon

  /** `CreateHallInput.Validate`: a name of 6 to 30 bytes, a code of letters and digits of at most 10 bytes. */
  function ValidateCreateHall(name: string, code: string): (errs: Validator.Errors)
    ensures errs <= {"name", "code"}
    ensures "name" in errs <==> !TextOk(name, 6, 30)
    ensures "code" in errs <==> !(ByteLen(TrimSpace(code)) > 0 && AlphanumRX(code) && ByteLen(code) <= 10)
  {
    var v0: Validator.Errors := {};
    var v1 := CheckText(v0, name, 6, 30, "name");
    var v2 := Check(v1, ByteLen(TrimSpace(code)) > 0, "code");
    var v3 := Check(v2, AlphanumRX(code), "code");
    Check(v3, ByteLen(code) <= 10, "code")
  }

  /** `UpdateHallInput.Validate`: an absent name is not checked, a given one follows the create rules. */
  function ValidateUpdateHall(name: Option<string>): (errs: Validator.Errors)
    ensures errs <= {"name"}
    ensures name.None? ==> errs == {}
    ensures name.Some? ==> ("name" in errs <==> !TextOk(name.value, 6, 30))
  {
    var v0: Validator.Errors := {};
    if name.Some? then CheckText(v0, name.value, 6, 30, "name") else v0
  }

  /** A given new name is judged exactly as a name at creation. */
  lemma UpdateNameAsCreate(name: string, code: string)
    ensures "name" in ValidateUpdateHall(Some(name)) <==> "name" in ValidateCreateHall(name, code)
  {
  }

  /** A code with a space is refused, however short. */
  lemma CodeWithSpaceRefused(name: string, code: string, i: nat)
    requires i < |code| && code[i] == ' '
    ensures "code" in ValidateCreateHall(name, code)
  {
    AlphanumRXMeaning(code);
  }

  /** `Errors()` of both inputs: the same two fixed messages, whatever the input. */
  function BindErrors(): (fields: map<string, string>)
    ensures fields.Keys == {"name", "code"}
    ensures fields["name"] == "required" && fields["code"] == "required"
  {
    map["name" := "required", "code" := "required"]
  }

  /** A body that does not bind is answered 400 with the fixed messages, for create and update alike. */
  lemma UnboundBodyResponse()
    ensures NewValidationError(BindErrors()).status == StatusBadRequest
    ensures NewValidationError(BindErrors()).body.fields["code"] == "required"
  {
  }

  /** The get handler's switch: it tests for the models package's ErrNotFound. */
  function GetHallStatus(err: Error): (status: int)
    ensures status == StatusNotFound <==> Is(err, NotFound)
    ensures status == StatusInternalServerError <==> !Is(err, NotFound)
  {
    if Is(err, NotFound) then StatusNotFound else StatusInternalServerError
  }

  /**
   * The service turns the store's not-found into ErrHallNotFound, which the get
   * handler does not test for: a missing hall is answered 500.
   */
  lemma MissingHallGets500(err: Error)
    requires Is(err, NotFound)
    ensures GetHallStatus(HallService.Find(FetchFailed(err)).error) == StatusInternalServerError
  {
  }

  /** The create handler's switch. */
  function CreateHallStatus(err: Error): (status: int)
    ensures Is(err, Unauthorized) ==> status == StatusForbidden
    ensures !Is(err, Unauthorized) && Is(err, TheaterNotFound) ==> status == StatusNotFound
    ensures !Is(err, Unauthorized) && !Is(err, TheaterNotFound) && Is(err, ServiceDuplicate) ==> status == StatusConflict
    ensures status == StatusInternalServerError <==>
      !Is(err, Unauthorized) && !Is(err, TheaterNotFound) && !Is(err, ServiceDuplicate)
  {
    if Is(err, Unauthorized) then StatusForbidden
    else if Is(err, TheaterNotFound) then StatusNotFound
    else if Is(err, ServiceDuplicate) then StatusConflict
    else StatusInternalServerError
  }

  /** End to end: a missing theater is 404, a stranger 403, a taken code 409. */
  lemma CreateHallRefusalStatuses(user: User, theaterId: int, name: string, code: string, rows: int, seatsPerRow: int,
                                  theater: Fetch<Theater>, stored: Option<Error>)
    requires HallService.Create(user, theaterId, name, code, rows, seatsPerRow, theater, stored).Returns?
    ensures var r := HallService.Create(user, theaterId, name, code, rows, seatsPerRow, theater, stored).value;
      theater.FetchFailed? && Is(theater.err, NotFound) ==> CreateHallStatus(r.result.error) == StatusNotFound
    ensures var r := HallService.Create(user, theaterId, name, code, rows, seatsPerRow, theater, stored).value;
      theater.Fetched? && !ServiceCommon.IsTheaterManagerOrAdmin(user, theater.value) ==>
        CreateHallStatus(r.result.error) == StatusForbidden
    ensures var r := HallService.Create(user, theaterId, name, code, rows, seatsPerRow, theater, stored).value;
      r.write.Some? && stored.Some? && Is(stored.value, Duplicate) ==> CreateHallStatus(r.result.error) == StatusConflict
  {
  }

  /** The update handler's switch. */
  function UpdateHallStatus(err: Error): (status: int)
    ensures Is(err, HallNotFound) ==> status == StatusNotFound
    ensures !Is(err, HallNotFound) && Is(err, Unauthorized) ==> status == StatusForbidden
    ensures !Is(err, HallNotFound) && !Is(err, Unauthorized) && Is(err, ServiceEditConflict) ==> status == StatusConflict
    ensures status == StatusInternalServerError <==>
      !Is(err, HallNotFound) && !Is(err, Unauthorized) && !Is(err, ServiceEditConflict)
  {
    if Is(err, HallNotFound) then StatusNotFound
    else if Is(err, Unauthorized) then StatusForbidden
    else if Is(err, ServiceEditConflict) then StatusConflict
    else StatusInternalServerError
  }

  /** The delete handler's switch. */
  function DeleteHallStatus(err: Error): (status: int)
    ensures Is(err, Unauthorized) ==> status == StatusForbidden
    ensures !Is(err, Unauthorized) && (Is(err, HallNotFound) || Is(err, TheaterNotFound)) ==> status == StatusNotFound
    ensures status == StatusInternalServerError <==>
      !Is(err, Unauthorized) && !Is(err, HallNotFound) && !Is(err, TheaterNotFound)
  {
    if Is(err, Unauthorized) then StatusForbidden
    else if Is(err, HallNotFound) || Is(err, TheaterNotFound) then StatusNotFound
    else StatusInternalServerError
  }

  /** End to end: deleting a hall code the store does not have is 404. */
  lemma DeleteMissingHallGets404(user: User, hallCode: string, theater: Theater, err: Error)
    requires ServiceCommon.IsTheaterManagerOrAdmin(user, theater) && Is(err, NotFound)
    ensures DeleteHallStatus(HallService.Delete(user, hallCode, Fetched(theater), Some(err)).result.error) == StatusNotFound
  {
  }
}
