/**
 * Go error values of the booking backend. Sentinels of the `models` and `services`
 * packages are distinct constructors; `fmt.Errorf("%w ...", e)` is `Wrapped(e, ...)`,
 * and `errors.Is` follows the chain of wrapped errors.
 */
module Errors {
  import opened Wrappers

  datatype Error =
    // models package sentinels
    | NotFound
    | Duplicate
    | EditConflict
    | InvalidSchedule
    // services package sentinels
    | HallNotFound
    | TheaterNotFound
    | MovieNotFound
    | ShowNotFound
    | UserNotFound
    | Unauthorized
    | ServiceDuplicate
    | ServiceEditConflict
    | InvalidShowDuration
    | InvalidUserRole
    | IncorrectPassword
    // any other error value: a database driver failure, a provider failure, a bcrypt failure
    | Other(description: string)
    // an error built with fmt.Errorf and the %w verb
    | Wrapped(inner: Error, context: string)

  /** `errors.Is(e, target)`: `e` is `target` or wraps it. */
  predicate Is(e: Error, target: Error)
  {
    e == target || (e.Wrapped? && Is(e.inner, target))
  }

  /** The error at the bottom of a chain of wrappings. */
  function Root(e: Error): (r: Error)
    ensures !r.Wrapped?
  {
    if e.Wrapped? then Root(e.inner) else e
  }

  /**
   * `errors.Is` against a sentinel looks at the root of the chain only, so an error
   * is at most one sentinel.
   */
  lemma {:induction false} IsMeansRoot(e: Error, target: Error)
    requires !target.Wrapped?
    ensures Is(e, target) <==> Root(e) == target
  {
    if e.Wrapped? {
      IsMeansRoot(e.inner, target);
    }
  }

  /** The result of a store lookup that returns `(*T, error)`. */
  datatype Fetch<+T> = Fetched(value: T) | FetchFailed(err: Error)
}
