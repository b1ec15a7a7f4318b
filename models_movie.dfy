/** Movies and the movie search filter (internal/models/movie.go). */
module MovieModel {
  import opened Wrappers
  import opened Validator
  import opened SqlQuery

  /**
   * A movie. `runtime` (a Go duration string such as "2h10m") and `imdbId` are the
   * fields the show service reads; the rest are the columns of the movies table.
   */
  datatype Movie = Movie(
    id: int,
    title: string,
    director: string,
    releaseYear: int,
    duration: string,
    imdbLink: string,
    imdbId: string,
    runtime: string,
    createdAt: int,
    updatedAt: int)

  datatype MovieFilter = MovieFilter(
    title: Option<string>,
    director: Option<string>,
    releaseYear: Option<int>,
    sortBy: Option<string>,
    limit: Option<nat>,
    offset: Option<nat>)

  const MovieSortValues: seq<string> := ["title", "-title", "release_year", "-release_year", "director", "-director"]

  /** `MovieFilter.Validate`; `currentYear` stands for `time.Now().Year()`. */
  function ValidateMovieFilter(f: MovieFilter, currentYear: int): (errs: Validator.Errors)
    ensures errs <= {"sort", "limit", "title", "director", "release_year"}
    ensures "sort" in errs <==> (f.sortBy.Some? && f.sortBy.value !in MovieSortValues)
    ensures "limit" in errs <==> f.limit.Some? && f.limit.value > 100
    ensures "title" in errs <==> f.title.Some? && ByteLen(f.title.value) > 100
    ensures "director" in errs <==> f.director.Some? && ByteLen(f.director.value) > 50
    ensures "release_year" in errs <==> (f.releaseYear.Some? && !(1900 <= f.releaseYear.value <= currentYear))
  {
    var v0: Validator.Errors := {};
    var v1 := if f.sortBy.Some? then Check(v0, f.sortBy.value in MovieSortValues, "sort") else v0;
    var v2 := if f.limit.Some? then Check(v1, f.limit.value <= 100, "limit") else v1;
    var v3 := if f.title.Some? then Check(v2, ByteLen(f.title.value) <= 100, "title") else v2;
    var v4 := if f.director.Some? then Check(v3, ByteLen(f.director.value) <= 50, "director") else v3;
    if f.releaseYear.Some? then
      Check(v4, f.releaseYear.value >= 1900 && f.releaseYear.value <= currentYear, "release_year")
    else v4
  }

  /** The decisions of `MovieFilter.Build`; the sort value is used as given. */
  function BuildMovieQuery(f: MovieFilter): (q: Query)
    ensures q.order.Some? <==> f.sortBy.Some?
    ensures f.sortBy.Some? ==> (q.order.value.Desc? <==> |f.sortBy.value| > 0 && f.sortBy.value[0] == '-')
    ensures f.sortBy.Some? ==> (q.order.value.column ==
      if |f.sortBy.value| > 0 && f.sortBy.value[0] == '-' then f.sortBy.value[1..] else f.sortBy.value)
    ensures q.limit == (if f.limit.Some? then f.limit.value else DefaultLimit)
    ensures q.offset == f.offset
    ensures forall y :: YearIs(y) in q.conditions <==> f.releaseYear == Some(y)
  {
    var year := if f.releaseYear.Some? then [YearIs(f.releaseYear.value)] else [];
    var conditions := MatchIfGiven("title", f.title) + MatchIfGiven("director", f.director) + year;
    var order := if f.sortBy.Some? then Some(SortOrder(f.sortBy.value)) else None;
    Query(conditions, order, LimitOrDefault(f.limit), f.offset)
  }

  /**
   * A validated sort orders by title, release_year or director, descending exactly
   * when the value starts with "-"; a validated query asks for at most 100 rows, and
   * for 20 when no limit is given.
   */
  lemma ValidatedMovieQuery(f: MovieFilter, currentYear: int)
    requires ValidateMovieFilter(f, currentYear) == {}
    ensures f.sortBy.Some? ==> BuildMovieQuery(f).order.value.column in {"title", "release_year", "director"}
    ensures f.sortBy.Some? ==> (BuildMovieQuery(f).order.value.Desc? <==> f.sortBy.value[0] == '-')
    ensures BuildMovieQuery(f).limit <= 100
    ensures f.limit.None? ==> BuildMovieQuery(f).limit == DefaultLimit
    ensures f.releaseYear.Some? ==> 1900 <= f.releaseYear.value <= currentYear
  {
    assert "sort" !in ValidateMovieFilter(f, currentYear);
    assert "limit" !in ValidateMovieFilter(f, currentYear);
    assert "release_year" !in ValidateMovieFilter(f, currentYear);
    if f.sortBy.Some? {
      assert "title"[..] == "-title"[1..];
      assert "release_year"[..] == "-release_year"[1..];
      assert "director"[..] == "-director"[1..];
    }
  }

  /** Before 1900 no year is accepted, however the clock reads. */
  lemma NoYearBefore1900(f: MovieFilter, currentYear: int)
    requires f.releaseYear.Some? && f.releaseYear.value < 1900
    ensures "release_year" in ValidateMovieFilter(f, currentYear)
  {
  }
}
