/**
 * The theater service (internal/services/theater_service.go): the create, update and
 * delete authorisation chains and the update's merge of the given fields.
 */
module TheaterService {
  import opened Wrappers
  import opened Errors
  import opened UserModel
  import opened TheaterModel
  import opened ServiceCommon

  datatype UpdateTheaterInput = UpdateTheaterInput(name: Option<string>, city: Option<string>, address: Option<string>)

  /** `TheaterService.Create`: only managers and admins reach the store, whose answer is returned as it is. */
  function Create(user: User, theater: Theater, stored: Option<Error>): (r: Reply<(), Theater>)
    ensures !IsManagerOrAdmin(user) ==> r == Reply(Failure(Unauthorized), None)
    ensures IsManagerOrAdmin(user) ==> (r.write == Some(theater)
      && r.result == (if stored.None? then Success(()) else Failure(stored.value)))
  {
    if !IsManagerOrAdmin(user) then Reply(Failure(Unauthorized), None)
    else Reply(if stored.None? then Success(()) else Failure(stored.value), Some(theater))
  }

  /**
   * `TheaterService.Update`: looks the theater up, checks the caller, overwrites the
   * fields the input gives and hands the theater to the store.
   */
  method Update(user: User, input: UpdateTheaterInput, found: Fetch<Theater>, stored: Option<Error>)
    returns (r: Reply<Theater, Theater>)
    ensures found.FetchFailed? ==> r == Reply(Failure(Classify(found.err, NotFound, TheaterNotFound)), None)
    ensures found.Fetched? && !IsTheaterManagerOrAdmin(user, found.value) ==>
      r.write.None? && r.result.Failure? && Is(r.result.error, Unauthorized)
    ensures r.write.Some? <==> found.Fetched? && IsTheaterManagerOrAdmin(user, found.value)
    ensures r.write.Some? ==>
      var t := r.write.value;
      t.name == Given(input.name, found.value.name) && t.city == Given(input.city, found.value.city)
      && t.address == Given(input.address, found.value.address)
      && t.(name := found.value.name, city := found.value.city, address := found.value.address) == found.value
    ensures r.write.Some? ==>
      r.result == (if stored.None? then Success(r.write.value) else Failure(Classify(stored.value, EditConflict, ServiceEditConflict)))
  {
    if found.FetchFailed? {
      return Reply(Failure(Classify(found.err, NotFound, TheaterNotFound)), None);
    }
    var theater := found.value;
    if !IsTheaterManagerOrAdmin(user, theater) {
      return Reply(Failure(Wrapped(Unauthorized, "updating theater info")), None);
    }
    if input.name.Some? {
      theater := theater.(name := input.name.value);
    }
    if input.city.Some? {
      theater := theater.(city := input.city.value);
    }
    if input.address.Some? {
      theater := theater.(address := input.address.value);
    }
    if stored.Some? {
      return Reply(Failure(Classify(stored.value, EditConflict, ServiceEditConflict)), Some(theater));
    }
    return Reply(Success(theater), Some(theater));
  }

  /** `TheaterService.Delete`: lookup, then the caller, then the store's delete, whose answer is returned as it is. */
  function Delete(user: User, theaterId: int, theater: Fetch<Theater>, deleted: Option<Error>): (r: Reply<(), int>)
    ensures theater.FetchFailed? ==> r == Reply(Failure(Classify(theater.err, NotFound, TheaterNotFound)), None)
    ensures theater.Fetched? && !IsTheaterManagerOrAdmin(user, theater.value) ==>
      r.write.None? && r.result.Failure? && Is(r.result.error, Unauthorized)
    ensures r.write.Some? <==> theater.Fetched? && IsTheaterManagerOrAdmin(user, theater.value)
    ensures r.write.Some? ==> (r.write.value == theaterId
      && r.result == (if deleted.None? then Success(()) else Failure(deleted.value)))
  {
    match theater
    case FetchFailed(err) => Reply(Failure(Classify(err, NotFound, TheaterNotFound)), None)
    case Fetched(t) =>
      if !IsTheaterManagerOrAdmin(user, t) then Reply(Failure(Wrapped(Unauthorized, "deleting theater")), None)
      else Reply(if deleted.None? then Success(()) else Failure(deleted.value), Some(theaterId))
  }

  /** A customer never reaches the store with a new theater. */
  lemma CustomerCannotCreate(user: User, theater: Theater, stored: Option<Error>)
    requires user.role == "customer"
    ensures Create(user, theater, stored).write.None?
    ensures Create(user, theater, stored).result == Failure(Unauthorized)
  {
  }

  /** A failed lookup in the delete chain never surfaces as the models package's ErrNotFound. */
  lemma DeleteLookupHidesNotFound(user: User, theaterId: int, err: Error, deleted: Option<Error>)
    ensures !Is(Delete(user, theaterId, FetchFailed(err), deleted).result.error, NotFound)
  {
  }
}
