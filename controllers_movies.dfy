/**
 * The movie handlers' input checks and the update handler's merge
 * (internal/controllers/movies.go). The clock, `time.ParseDuration` and `url.Parse`
 * are inputs: `currentYear`, `parseDuration` and `parseUrl`.
 */
module MovieHandlers {
  import opened Wrappers
  import opened Errors
  import opened Validator
  import opened MovieModel
  import opened HttpUtil

  datatype CreateMovieInput = CreateMovieInput(
    title: string,
    director: string,
    releaseYear: Option<int>,
    duration: string,
    imdbLink: string)

  datatype UpdateMovieInput = UpdateMovieInput(
    title: Option<string>,
    director: Option<string>,
    releaseYear: Option<int>,
    duration: Option<string>,
    imdbLink: Option<string>)

  /** The parts of a parsed URL the checks read: its scheme and `Hostname()`. */
  datatype Url = Url(scheme: string, hostname: string)

  const AllowedHost: string := "imdb.com"

  predicate HasSuffix(s: string, suffix: string)
  {
    |suffix| <= |s| && s[|s| - |suffix|..] == suffix
  }

  /** The host test: imdb.com itself or any of its sub-domains. */
  predicate ImdbHost(host: string)
  {
    host == AllowedHost || HasSuffix(host, "." + AllowedHost)
  }

  lemma ImdbHostMeaning(host: string)
    ensures ImdbHost(host) <==> (host == "imdb.com" || exists sub :: host == sub + ".imdb.com")
  {
    if HasSuffix(host, "." + AllowedHost) {
      var sub := host[..|host| - 9];
      assert host == sub + ".imdb.com";
    }
    if exists sub :: host == sub + ".imdb.com" {
      var sub :| host == sub + ".imdb.com";
      assert host[|host| - 9..] == ".imdb.com";
    }
  }

  /** A link passes when it parses, its scheme is https and its host is IMDb's. */
  predicate LinkOk(link: string, parseUrl: string -> Option<Url>)
  {
    parseUrl(link).Some? && parseUrl(link).value.scheme == "https" && ImdbHost(parseUrl(link).value.hostname)
  }

  /**
   * The link check shared by both inputs: an unparsable link is flagged and the
   * remaining link checks are skipped; a parsed one needs https and an IMDb host.
   */
  function CheckImdbLink(v: Validator.Errors, link: string, parseUrl: string -> Option<Url>): (w: Validator.Errors)
    ensures w == if LinkOk(link, parseUrl) then v else v + {"imdb_link"}
  {
    match parseUrl(link)
    case None => v + {"imdb_link"}
    case Some(u) =>
      var v1 := Check(v, u.scheme == "https", "imdb_link");
      if !ImdbHost(u.hostname) then v1 + {"imdb_link"} else v1
  }

  /** The duration check: the text must parse as a Go duration. */
  function CheckDuration(v: Validator.Errors, duration: string, parseDuration: string -> Option<int>): (w: Validator.Errors)
    ensures w == if parseDuration(duration).Some? then v else v + {"duration"}
  {
    if parseDuration(duration).None? then v + {"duration"} else v
  }

  /** The title and director rules of both inputs. */
  function CheckTitle(v: Validator.Errors, title: string): (w: Validator.Errors)
    ensures w == if TextOk(title, 6, 100) then v else v + {"title"}
  {
    CheckText(v, title, 6, 100, "title")
  }

  function CheckDirector(v: Validator.Errors, director: string): (w: Validator.Errors)
    ensures w == if TextOk(director, 6, 50) then v else v + {"director"}
  {
    CheckText(v, director, 6, 50, "director")
  }

  predicate YearOk(year: int, currentYear: int)
  {
    1900 <= year <= currentYear
  }

  /**
   * `CreateMovieInput.Validate` as written: a missing release year is recorded as
   * required and then dereferenced by the range check, which panics.
   */
  function ValidateCreateMovieAsWritten(input: CreateMovieInput, currentYear: int,
                                        parseDuration: string -> Option<int>,
                                        parseUrl: string -> Option<Url>): (r: Run<Validator.Errors>)
    ensures r.Panics? <==> input.releaseYear.None?
  {
    var v0: Validator.Errors := {};
    var v1 := CheckTitle(v0, input.title);
    var v2 := CheckDirector(v1, input.director);
    var v3 := Check(v2, input.releaseYear.Some?, "release_year");
    match input.releaseYear
    case None => Panics
    case Some(year) =>
      var v4 := Check(v3, YearOk(year, currentYear), "release_year");
      var v5 := CheckDuration(v4, input.duration, parseDuration);
      Returns(CheckImdbLink(v5, input.imdbLink, parseUrl))
  }

  /**
   * `CreateMovieInput.Validate` as evidently intended: a missing release year is
   * reported as required and the range check applies only to a given year.
   */
  function ValidateCreateMovie(input: CreateMovieInput, currentYear: int,
                               parseDuration: string -> Option<int>,
                               parseUrl: string -> Option<Url>): (errs: Validator.Errors)
    ensures errs <= {"title", "director", "release_year", "duration", "imdb_link"}
    ensures "title" in errs <==> !TextOk(input.title, 6, 100)
    ensures "director" in errs <==> !TextOk(input.director, 6, 50)
    ensures "release_year" in errs <==> (input.releaseYear.None? || !YearOk(input.releaseYear.value, currentYear))
    ensures "duration" in errs <==> parseDuration(input.duration).None?
    ensures "imdb_link" in errs <==> !LinkOk(input.imdbLink, parseUrl)
  {
    var v0: Validator.Errors := {};
    var v1 := CheckTitle(v0, input.title);
    var v2 := CheckDirector(v1, input.director);
    var v3 := match input.releaseYear
      case None => v2 + {"release_year"}
      case Some(year) => Check(v2, YearOk(year, currentYear), "release_year");
    var v4 := CheckDuration(v3, input.duration, parseDuration);
    CheckImdbLink(v4, input.imdbLink, parseUrl)
  }

  /** Wherever the written check returns, the corrected one returns the same errors. */
  lemma CorrectedCreateAgrees(input: CreateMovieInput, currentYear: int,
                              parseDuration: string -> Option<int>, parseUrl: string -> Option<Url>)
    ensures ValidateCreateMovieAsWritten(input, currentYear, parseDuration, parseUrl).Returns? ==>
      ValidateCreateMovieAsWritten(input, currentYear, parseDuration, parseUrl).value
        == ValidateCreateMovie(input, currentYear, parseDuration, parseUrl)
  {
    if input.releaseYear.Some? {
      var w := ValidateCreateMovieAsWritten(input, currentYear, parseDuration, parseUrl).value;
      var c := ValidateCreateMovie(input, currentYear, parseDuration, parseUrl);
      assert forall k :: k in w <==> k in c;
    }
  }

  /** A body without a release year, otherwise valid, panics as written. */
  lemma MissingYearPanics(currentYear: int, parseDuration: string -> Option<int>, parseUrl: string -> Option<Url>)
    ensures ValidateCreateMovieAsWritten(
      CreateMovieInput("Interstellar", "Christopher Nolan", None, "2h49m", "https://www.imdb.com/title/tt0816692/"),
      currentYear, parseDuration, parseUrl).Panics?
    ensures "release_year" in ValidateCreateMovie(
      CreateMovieInput("Interstellar", "Christopher Nolan", None, "2h49m", "https://www.imdb.com/title/tt0816692/"),
      currentYear, parseDuration, parseUrl)
  {
  }

  /** `UpdateMovieInput.Validate`: the create rules, applied to the given fields only. */
  function ValidateUpdateMovie(input: UpdateMovieInput, currentYear: int,
                               parseDuration: string -> Option<int>,
                               parseUrl: string -> Option<Url>): (errs: Validator.Errors)
    ensures errs <= {"title", "director", "release_year", "duration", "imdb_link"}
    ensures "title" in errs <==> input.title.Some? && !TextOk(input.title.value, 6, 100)
    ensures "director" in errs <==> input.director.Some? && !TextOk(input.director.value, 6, 50)
    ensures "release_year" in errs <==> input.releaseYear.Some? && !YearOk(input.releaseYear.value, currentYear)
    ensures "duration" in errs <==> input.duration.Some? && parseDuration(input.duration.value).None?
    ensures "imdb_link" in errs <==> input.imdbLink.Some? && !LinkOk(input.imdbLink.value, parseUrl)
  {
    var v0: Validator.Errors := {};
    var v1 := if input.title.Some? then CheckTitle(v0, input.title.value) else v0;
    var v2 := if input.director.Some? then CheckDirector(v1, input.director.value) else v1;
    var v3 := if input.releaseYear.Some? then Check(v2, YearOk(input.releaseYear.value, currentYear), "release_year") else v2;
    var v4 := if input.duration.Some? then CheckDuration(v3, input.duration.value, parseDuration) else v3;
    if input.imdbLink.Some? then CheckImdbLink(v4, input.imdbLink.value, parseUrl) else v4
  }

  /** An update that gives every field is judged exactly as a creation. */
  lemma FullUpdateAsCreate(input: CreateMovieInput, currentYear: int,
                           parseDuration: string -> Option<int>, parseUrl: string -> Option<Url>)
    requires input.releaseYear.Some?
    ensures ValidateUpdateMovie(
      UpdateMovieInput(Some(input.title), Some(input.director), input.releaseYear, Some(input.duration), Some(input.imdbLink)),
      currentYear, parseDuration, parseUrl)
      == ValidateCreateMovie(input, currentYear, parseDuration, parseUrl)
  {
    var u := ValidateUpdateMovie(
      UpdateMovieInput(Some(input.title), Some(input.director), input.releaseYear, Some(input.duration), Some(input.imdbLink)),
      currentYear, parseDuration, parseUrl);
    var c := ValidateCreateMovie(input, currentYear, parseDuration, parseUrl);
    assert forall k :: k in u <==> k in c;
  }

  /**
   * The update handler after the id and the body are read: the checks, the lookup,
   * then the given fields are written over the fetched movie and the store updates it.
   */
  method UpdateMovie(input: UpdateMovieInput, currentYear: int,
                     parseDuration: string -> Option<int>, parseUrl: string -> Option<Url>,
                     found: Fetch<Movie>, stored: Option<Error>)
    returns (r: Handled<Movie>)
    ensures ValidateUpdateMovie(input, currentYear, parseDuration, parseUrl) != {} ==> r == Handled(StatusBadRequest, None)
    ensures ValidateUpdateMovie(input, currentYear, parseDuration, parseUrl) == {} && found.FetchFailed? ==>
      r == Handled(if Is(found.err, NotFound) then StatusNotFound else StatusInternalServerError, None)
    ensures r.write.Some? <==> ValidateUpdateMovie(input, currentYear, parseDuration, parseUrl) == {} && found.Fetched?
    ensures r.write.Some? ==>
      var m := r.write.value;
      var old_ := found.value;
      m.title == Given(input.title, old_.title) && m.director == Given(input.director, old_.director)
      && m.releaseYear == Given(input.releaseYear, old_.releaseYear)
      && m.duration == Given(input.duration, old_.duration) && m.imdbLink == Given(input.imdbLink, old_.imdbLink)
      && m.(title := old_.title, director := old_.director, releaseYear := old_.releaseYear,
            duration := old_.duration, imdbLink := old_.imdbLink) == old_
    ensures r.write.Some? ==> (r.status ==
      (if stored.None? then StatusOK else if Is(stored.value, EditConflict) then StatusConflict else StatusInternalServerError))
  {
    if ValidateUpdateMovie(input, currentYear, parseDuration, parseUrl) != {} {
      return Handled(StatusBadRequest, None);
    }
    if found.FetchFailed? {
      return Handled(if Is(found.err, NotFound) then StatusNotFound else StatusInternalServerError, None);
    }
    var movie := found.value;
    if input.title.Some? {
      movie := movie.(title := input.title.value);
    }
    if input.director.Some? {
      movie := movie.(director := input.director.value);
    }
    if input.releaseYear.Some? {
      movie := movie.(releaseYear := input.releaseYear.value);
    }
    if input.duration.Some? {
      movie := movie.(duration := input.duration.value);
    }
    if input.imdbLink.Some? {
      movie := movie.(imdbLink := input.imdbLink.value);
    }
    if stored.Some? {
      if Is(stored.value, EditConflict) {
        return Handled(StatusConflict, Some(movie));
      }
      return Handled(StatusInternalServerError, Some(movie));
    }
    return Handled(StatusOK, Some(movie));
  }
}
