/**
 * The theater handlers (internal/controllers/theaters.go): the input checks and
 * the create, update and delete handlers, which call the store directly and check
 * ownership themselves.
 */
module TheaterHandlers {
  import opened Wrappers
  import opened Errors
  import opened Validator
  import opened UserModel
  import opened TheaterModel
  import opened HttpUtil
  import opened TheaterService
  import ServiceCommon

  /** `CreateTheaterInput.Validate`: name 6-50, city 6-30 and address 6-100 bytes, none blank. */
  function ValidateCreateTheater(name: string, city: string, address: string): (errs: Validator.Errors)
    ensures errs <= {"name", "city", "address"}
    ensures "name" in errs <==> !TextOk(name, 6, 50)
    ensures "city" in errs <==> !TextOk(city, 6, 30)
    ensures "address" in errs <==> !TextOk(address, 6, 100)
  {
    var v0: Validator.Errors := {};
    var v1 := CheckText(v0, name, 6, 50, "name");
    var v2 := CheckText(v1, city, 6, 30, "city");
    CheckText(v2, address, 6, 100, "address")
  }

  /** `UpdateTheaterInput.Validate`: the same rules, on the given fields only. */
  function ValidateUpdateTheater(input: UpdateTheaterInput): (errs: Validator.Errors)
    ensures errs <= {"name", "city", "address"}
    ensures "name" in errs <==> input.name.Some? && !TextOk(input.name.value, 6, 50)
    ensures "city" in errs <==> input.city.Some? && !TextOk(input.city.value, 6, 30)
    ensures "address" in errs <==> input.address.Some? && !TextOk(input.address.value, 6, 100)
  {
    var v0: Validator.Errors := {};
    var v1 := if input.name.Some? then CheckText(v0, input.name.value, 6, 50, "name") else v0;
    var v2 := if input.city.Some? then CheckText(v1, input.city.value, 6, 30, "city") else v1;
    if input.address.Some? then CheckText(v2, input.address.value, 6, 100, "address") else v2
  }

  /** A full update is judged field by field exactly as a creation. */
  lemma UpdateAsCreate(name: string, city: string, address: string)
    ensures ValidateUpdateTheater(UpdateTheaterInput(Some(name), Some(city), Some(address)))
      == ValidateCreateTheater(name, city, address)
  {
  }

  /** The ownership test of the update and delete handlers: the recorded manager only, with no admin bypass. */
  predicate HandlerOwns(user: User, theater: Theater)
  {
    theater.managerId == user.id
  }

  /** An admin who does not manage the theater passes the services' check but not the handlers'. */
  lemma AdminIsNotOwner(user: User, theater: Theater)
    requires user.role == "admin" && theater.managerId != user.id
    ensures ServiceCommon.IsTheaterManagerOrAdmin(user, theater) && !HandlerOwns(user, theater)
  {
  }

  /**
   * The create handler: the checks, then the store's insert of a theater managed by
   * the caller. There is no role check: the service's is bypassed.
   */
  function CreateTheater(user: User, name: string, city: string, address: string, stored: Option<Error>): (r: Handled<Theater>)
    ensures ValidateCreateTheater(name, city, address) != {} <==> r == Handled(StatusBadRequest, None)
    ensures r.write.Some? ==> (r.write.value == Theater(0, user.id, name, city, address, 0, 0, [])
      && r.status == (if stored.None? then StatusCreated else StatusInternalServerError))
  {
    if ValidateCreateTheater(name, city, address) != {} then Handled(StatusBadRequest, None)
    else Handled(if stored.None? then StatusCreated else StatusInternalServerError, Some(Theater(0, user.id, name, city, address, 0, 0, [])))
  }

  /** A customer with valid input reaches the store, although the service would refuse the role. */
  lemma CustomerCreatesTheater(user: User, name: string, city: string, address: string, stored: Option<Error>)
    requires user.role == "customer" && ValidateCreateTheater(name, city, address) == {}
    ensures CreateTheater(user, name, city, address, stored).write.Some?
    ensures TheaterService.Create(user, Theater(0, user.id, name, city, address, 0, 0, []), stored).write.None?
  {
  }

  /** How a failed theater lookup is answered by the update and delete handlers. */
  function LookupStatus(err: Error): (status: int)
    ensures status == (if Is(err, NotFound) then StatusNotFound else StatusInternalServerError)
  {
    if Is(err, NotFound) then StatusNotFound else StatusInternalServerError
  }

  /**
   * The update handler: the checks, the lookup, the ownership test, then the given
   * fields are written over the fetched theater and the store updates it.
   */
  method UpdateTheater(user: User, input: UpdateTheaterInput, found: Fetch<Theater>, stored: Option<Error>)
    returns (r: Handled<Theater>)
    ensures ValidateUpdateTheater(input) != {} ==> r == Handled(StatusBadRequest, None)
    ensures ValidateUpdateTheater(input) == {} && found.FetchFailed? ==> r == Handled(LookupStatus(found.err), None)
    ensures ValidateUpdateTheater(input) == {} && found.Fetched? && !HandlerOwns(user, found.value) ==>
      r == Handled(StatusForbidden, None)
    ensures r.write.Some? <==> ValidateUpdateTheater(input) == {} && found.Fetched? && HandlerOwns(user, found.value)
    ensures r.write.Some? ==>
      var t := r.write.value;
      t.name == Given(input.name, found.value.name) && t.city == Given(input.city, found.value.city)
      && t.address == Given(input.address, found.value.address)
      && t.(name := found.value.name, city := found.value.city, address := found.value.address) == found.value
    ensures r.write.Some? ==> (r.status ==
      (if stored.None? then StatusOK else if Is(stored.value, EditConflict) then StatusConflict else StatusInternalServerError))
  {
    if ValidateUpdateTheater(input) != {} {
      return Handled(StatusBadRequest, None);
    }
    if found.FetchFailed? {
      return Handled(LookupStatus(found.err), None);
    }
    var theater := found.value;
    if theater.managerId != user.id {
      return Handled(StatusForbidden, None);
    }
    if input.name.Some? {
      theater := theater.(name := input.name.value);
    }
    if input.city.Some? {
      theater := theater.(city := input.city.value);
    }
    if input.address.Some? {
      theater := theater.(address := input.address.value);
    }
    if stored.Some? {
      if Is(stored.value, EditConflict) {
        return Handled(StatusConflict, Some(theater));
      }
      return Handled(StatusInternalServerError, Some(theater));
    }
    return Handled(StatusOK, Some(theater));
  }

  /** The delete handler: lookup, ownership, then the store's delete, any error of which is a 500. */
  function DeleteTheater(user: User, theaterId: int, found: Fetch<Theater>, deleted: Option<Error>): (r: Handled<int>)
    ensures found.FetchFailed? ==> r == Handled(LookupStatus(found.err), None)
    ensures found.Fetched? && !HandlerOwns(user, found.value) ==> r == Handled(StatusForbidden, None)
    ensures r.write.Some? <==> found.Fetched? && HandlerOwns(user, found.value)
    ensures r.write.Some? ==> (r.write.value == theaterId
      && r.status == (if deleted.None? then StatusOK else StatusInternalServerError))
  {
    match found
    case FetchFailed(err) => Handled(LookupStatus(err), None)
    case Fetched(t) =>
      if t.managerId != user.id then Handled(StatusForbidden, None)
      else Handled(if deleted.None? then StatusOK else StatusInternalServerError, Some(theaterId))
  }
}
