/** Shows and the show search filter (internal/models/show.go). Times are nanoseconds. */
module ShowModel {
  import opened Wrappers
  import opened Validator
  import opened SqlQuery

  const Hour: int := 3_600_000_000_000
  const Week: int := 7 * 24 * Hour

  datatype Show = Show(
    id: int,
    theaterId: int,
    hallId: int,
    hallCode: string,
    movieId: string,
    movieTitle: string,
    movieImdbLink: string,
    start: int,
    end: int,
    createdAt: int,
    updatedAt: int)

  datatype ShowFilter = ShowFilter(
    movieTitle: Option<string>,
    theaterName: Option<string>,
    theaterCity: Option<string>,
    startDate: Option<int>,
    endDate: Option<int>,
    sortBy: Option<string>,
    limit: Option<nat>,
    offset: Option<nat>)

  /** The sort values the filter accepts, with the column each one orders by. */
  const SortColumns: map<string, string> := map[
    "movie_title" := "m.title", "-movie_title" := "-m.title",
    "theater_name" := "t.name", "-theater_name" := "-t.name",
    "theater_city" := "t.city", "-theater_city" := "-t.city",
    "date" := "s.start_time", "-date" := "-s.start_time"]

  /** `ShowFilter.Validate`. */
  function ValidateShowFilter(f: ShowFilter): (errs: Errors)
    ensures errs <= {"sort", "limit", "movie_title", "theater_name", "theater_city"}
    ensures "sort" in errs <==> (f.sortBy.Some? && f.sortBy.value !in
      {"movie_title", "-movie_title", "theater_name", "-theater_name", "theater_city", "-theater_city", "date", "-date"})
    ensures "limit" in errs <==> f.limit.Some? && f.limit.value > 100
    ensures "movie_title" in errs <==> f.movieTitle.Some? && ByteLen(f.movieTitle.value) > 100
    ensures "theater_name" in errs <==> f.theaterName.Some? && ByteLen(f.theaterName.value) > 50
    ensures "theater_city" in errs <==> f.theaterCity.Some? && ByteLen(f.theaterCity.value) > 30
  {
    var v0: Errors := {};
    var v1 := if f.sortBy.Some? && f.sortBy.value !in SortColumns then v0 + {"sort"} else v0;
    var v2 := if f.limit.Some? then Check(v1, f.limit.value <= 100, "limit") else v1;
    var v3 := if f.movieTitle.Some? then Check(v2, ByteLen(f.movieTitle.value) <= 100, "movie_title") else v2;
    var v4 := if f.theaterName.Some? then Check(v3, ByteLen(f.theaterName.value) <= 50, "theater_name") else v3;
    if f.theaterCity.Some? then Check(v4, ByteLen(f.theaterCity.value) <= 30, "theater_city") else v4
  }

  /**
   * The decisions of `ShowFilter.Build`. `now` stands for the clock: without dates the
   * search window is (now, now + 7 days). An unknown sort value panics.
   */
  function BuildShowQuery(f: ShowFilter, now: int): (r: Run<Query>)
    ensures r.Panics? <==> f.sortBy.Some? && f.sortBy.value !in SortColumns
    ensures r.Returns? ==> r.value.limit == (if f.limit.Some? then f.limit.value else 20)
    ensures r.Returns? ==> r.value.offset == f.offset
    ensures r.Returns? ==> (r.value.order.Some? <==> f.sortBy.Some?)
  {
    var conditions :=
      MatchIfGiven("m.title", f.movieTitle)
      + MatchIfGiven("t.name", f.theaterName)
      + MatchIfGiven("t.city", f.theaterCity)
      + [StartsAfter(if f.startDate.Some? then f.startDate.value else now)]
      + [StartsBefore(if f.endDate.Some? then f.endDate.value else now + Week)];
    if f.sortBy.Some? && f.sortBy.value !in SortColumns then Panics
    else
      var order := if f.sortBy.Some? then Some(SortOrder(SortColumns[f.sortBy.value])) else None;
      Returns(Query(conditions, order, LimitOrDefault(f.limit), f.offset))
  }

  /** A filter that passed validation never reaches the panic of Build. */
  lemma ValidatedFilterBuilds(f: ShowFilter, now: int)
    requires ValidateShowFilter(f) == {}
    ensures BuildShowQuery(f, now).Returns?
  {
    assert "sort" !in ValidateShowFilter(f);
  }

  /** A "-"-prefixed sort value orders by its mapped column, descending; the others ascending. */
  lemma SortDirection(f: ShowFilter, now: int)
    requires f.sortBy.Some? && f.sortBy.value in SortColumns
    ensures BuildShowQuery(f, now).value.order ==
      Some(if f.sortBy.value[0] == '-' then Desc(SortColumns[f.sortBy.value[1..]])
           else Asc(SortColumns[f.sortBy.value]))
  {
  }

  /** "-date" orders by s.start_time DESC. */
  lemma SortByDateDescending(f: ShowFilter, now: int)
    requires f.sortBy == Some("-date")
    ensures BuildShowQuery(f, now).value.order == Some(Desc("s.start_time"))
  {
    assert "s.start_time"[..] == "-s.start_time"[1..];
  }

  /** Without dates the search covers shows starting in the coming week. */
  lemma DefaultSearchWindow(f: ShowFilter, now: int)
    requires f.startDate.None? && f.endDate.None? && f.sortBy.None?
    ensures StartsAfter(now) in BuildShowQuery(f, now).value.conditions
    ensures StartsBefore(now + Week) in BuildShowQuery(f, now).value.conditions
  {
  }
}
