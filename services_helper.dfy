/**
 * What the services share (internal/services/helper.go): the three authorisation
 * predicates, the mapping of a models error to a services sentinel, and the shape of
 * a service reply.
 */
module ServiceCommon {
  import opened Wrappers
  import opened Errors
  import opened UserModel
  import opened HallModel
  import opened TheaterModel

  /**
   * What a service call returns, together with the argument it handed to its final
   * store call (`None` when that call was never made). The store's own answer is an
   * input of the service function.
   */
  datatype Reply<+T, +W> = Reply(result: Result<T, Error>, write: Option<W>)

  /** `isManagerOrAdmin`. */
  predicate IsManagerOrAdmin(user: User)
  {
    user.role == "manager" || user.role == "admin"
  }

  /** `isTheaterManagerOrAdmin`. */
  predicate IsTheaterManagerOrAdmin(user: User, theater: Theater)
  {
    theater.managerId == user.id || user.role == "admin"
  }

  /** `isHallManagerOrAdmin`. */
  predicate IsHallManagerOrAdmin(user: User, hall: Hall)
  {
    hall.managerId == user.id || user.role == "admin"
  }

  /**
   * The switch each service puts after a store call: an error that `errors.Is` finds
   * to be `target` becomes `sentinel`, any other error is passed on unchanged.
   */
  function Classify(err: Error, target: Error, sentinel: Error): (e: Error)
    ensures Is(err, target) ==> e == sentinel
    ensures !Is(err, target) ==> e == err
  {
    if Is(err, target) then sentinel else err
  }

  /** A classified error is the models sentinel only if the services sentinel is. */
  lemma ClassifyHidesTarget(err: Error, target: Error, sentinel: Error)
    requires !Is(sentinel, target)
    ensures !Is(Classify(err, target, sentinel), target)
  {
  }

  /** An admin passes both ownership checks whatever the ids. */
  lemma AdminOwnsEverything(user: User, theater: Theater, hall: Hall)
    requires user.role == "admin"
    ensures IsManagerOrAdmin(user) && IsTheaterManagerOrAdmin(user, theater) && IsHallManagerOrAdmin(user, hall)
  {
  }

  /** The "manager" role alone is not enough: a manager must be the one recorded on the theater or hall. */
  lemma ManagerMustOwn(user: User, theater: Theater, hall: Hall)
    requires user.role == "manager"
    ensures IsManagerOrAdmin(user)
    ensures IsTheaterManagerOrAdmin(user, theater) <==> theater.managerId == user.id
    ensures IsHallManagerOrAdmin(user, hall) <==> hall.managerId == user.id
  {
  }

  /** A customer passes an ownership check only by owning the record, and never the role check. */
  lemma CustomerIsNotManager(user: User, theater: Theater)
    requires user.role == "customer"
    ensures !IsManagerOrAdmin(user)
    ensures IsTheaterManagerOrAdmin(user, theater) <==> theater.managerId == user.id
  {
  }
}
