/** The movie service (internal/services/movie_service.go): a read-through lookup. */
module MovieService {
  import opened Wrappers
  import opened Errors
  import opened MovieModel

  /** Go's `(*Movie, error)` pair, both halves of which the caller receives. */
  datatype Answer = Answer(movie: Option<Movie>, err: Option<Error>)

  /** What `Find` answers, whether it asked the provider, and the movie it handed to the store (if any). */
  datatype FindReply = FindReply(answer: Answer, askedProvider: bool, write: Option<Movie>)

  /**
   * `MovieService.Find`. `stored` is the store's lookup, `provided` the provider's
   * answer and `written` the store's answer to the insert. The not-found test
   * compares the error value itself, so a wrapped ErrNotFound does not reach the
   * provider.
   */
  function Find(stored: Fetch<Movie>, provided: Fetch<Movie>, written: Option<Error>): (r: FindReply)
    ensures stored.Fetched? ==> r == FindReply(Answer(Some(stored.value), None), false, None)
    ensures stored.FetchFailed? && stored.err != NotFound ==> r == FindReply(Answer(None, Some(stored.err)), false, None)
    ensures r.askedProvider <==> stored == FetchFailed(NotFound)
    ensures r.askedProvider && provided.FetchFailed? ==> r == FindReply(Answer(None, Some(provided.err)), true, None)
    ensures r.write.Some? <==> r.askedProvider && provided.Fetched?
    ensures r.write.Some? ==> r.write.value == provided.value && r.answer == Answer(Some(provided.value), written)
  {
    match stored
    case Fetched(movie) => FindReply(Answer(Some(movie), None), false, None)
    case FetchFailed(err) =>
      if err != NotFound then FindReply(Answer(None, Some(err)), false, None)
      else match provided
        case FetchFailed(perr) => FindReply(Answer(None, Some(perr)), true, None)
        case Fetched(movie) => FindReply(Answer(Some(movie), written), true, Some(movie))
  }

  /** A not-found that arrives wrapped is returned to the caller instead of triggering the provider. */
  lemma WrappedNotFoundIsReturned(context: string, provided: Fetch<Movie>, written: Option<Error>)
    ensures var e := Wrapped(NotFound, context);
      Is(e, NotFound) && Find(FetchFailed(e), provided, written) == FindReply(Answer(None, Some(e)), false, None)
  {
  }

  /** The movie the caller gets is always one the store or the provider gave. */
  lemma AnswerComesFromACollaborator(stored: Fetch<Movie>, provided: Fetch<Movie>, written: Option<Error>)
    ensures var a := Find(stored, provided, written).answer;
      a.movie.Some? ==> (stored == Fetched(a.movie.value) || provided == Fetched(a.movie.value))
    ensures var a := Find(stored, provided, written).answer; a.movie.Some? || a.err.Some?
  {
  }
}
