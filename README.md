# Showtime booking backend: a Dafny model of its decision logic

Showtime is an HTTP service for cinema bookings. Users sign up and log in, managers
run theaters and their halls, shows are scheduled in halls, and movies are looked up
in the store or, failing that, from OMDb. This project models the decisions the
service makes between receiving a request and touching the database:

- the input checks of the handlers and of the search filters;
- the query plans the filters build;
- the ownership rules;
- the fixed-order error chains of the services;
- the mapping of service errors to HTTP statuses;
- the seat layout of a new hall;
- the show-schedule overlap test;
- the assembly of a theater from its joined rows;
- the idle-session cache.

Everything the code depends on from outside is an input of the model:

- the SQL store, the OMDb provider and bcrypt;
- `time.Now`, `time.ParseDuration` and `url.Parse`.

A store lookup is a `Fetch<T>`, a store write an `Option<Error>`. A service answers
with a `Reply`, which pairs its result with the argument it handed to its final store
call. A handler answers with a `Handled`, which pairs the status with that argument.
`None` in either one means the store was not called. Times are integer nanoseconds.
Go's `len` on a string is the UTF-8 byte length (`Validator.ByteLen`), and
`strings.TrimSpace` follows `unicode.IsSpace`. `errors.Is` follows `%w` wrapping
(`Errors.Is`).

One module per Go file:

| module | file |
|---|---|
| `Errors` | the error values |
| `Validator`, `Regex` | pkg/validator |
| `SqlQuery` | the query plans |
| `HallModel`, `ShowModel`, `SeatModel`, `TheaterModel`, `MovieModel`, `UserModel` | internal/models |
| `ServiceCommon`, `HallService`, `ShowService`, `TheaterService`, `UserService`, `MovieService` | internal/services |
| `HttpUtil` | internal/httputil |
| `ShowHandlers`, `HallHandlers`, `TheaterHandlers`, `MovieHandlers`, `UserHandlers` | internal/controllers |
| `SessionCache` | pkg/cache |

Where the code changes things step by step, the model is imperative Dafny:

- `HallService.NewSeating` fills an array in a loop;
- `TheaterModel.Find` folds the joined rows in a loop;
- the update handlers and services merge the given fields into the fetched record in steps;
- the cache is a class whose `Sweep` deletes idle entries in a loop.

Each of these is proved against a function that specifies it.

Where the code does something other than what its comments, tests or API
documentation suggest, the model follows the code:

- The get-hall handler tests for the store's `ErrNotFound`. The service has already
  turned that into `ErrHallNotFound`, so a missing hall is answered 500
  (`HallHandlers.MissingHallGets500`).
- The delete-show handler answers 409, not 403, to a caller without rights
  (`ShowHandlers.NonOwnerDeleteGets409`).
- The theater handlers check ownership against the manager id only: an admin who
  does not manage the theater is refused (`TheaterHandlers.AdminIsNotOwner`).
- The create-theater handler calls the store directly. It skips the service's role
  check, so a customer can create a theater (`TheaterHandlers.CustomerCreatesTheater`).
- Signup accepts the role from the request body, so anyone may sign up as an admin
  (`UserHandlers.SignupAsAdmin`).
- The movie service compares the store's error with `ErrNotFound` by identity: a
  wrapped not-found is returned, and the provider is not asked
  (`MovieService.WrappedNotFoundIsReturned`).
- `HallService.Delete` deletes by hall code alone. The theater id is used for the
  ownership check and not for the delete.
- `EmailRX` is a starred group, so the empty string and two addresses written back
  to back both match (`Regex.EmailRXAcceptsEmpty`, `Regex.EmailRXConcat`). The
  separate "required" check is what rejects an empty email.
- The show service stores a show without asking the hall schedule
  (`ShowService.CollidingShowIsStored`).
- The sentinels `ErrHallNotFound`, `ErrUnauthorized` and the other services errors
  are not defined in the files modelled here. They are modelled as distinct values.
- The files do not type-check against one another (`Hall.ManagerID`, `Movie.Runtime`,
  the type of `Show.MovieID`). Each record carries the fields its users read. The
  movie update handler assigns a parsed `time.Duration` to the movie's duration; the
  model keeps the validated input string.

## Model

| member | source | states |
|---|---|---|
| Errors.Root | internal/services/show_service.go:37 | the error at the bottom of a `%w` chain is never itself a wrapper |
| Errors.IsMeansRoot | internal/services/show_service.go:27-31 | `errors.Is` against a sentinel holds exactly when the chain's root is that sentinel, so an error is at most one sentinel |
| Validator.ByteLen | internal/controllers/halls.go:231 | Go's `len` of a string is at least its number of code points, and equal to it for ASCII text |
| Validator.TrimLeftSpec | internal/controllers/halls.go:230 | trimming leading space empties exactly the all-space strings, and otherwise leaves a non-space first character |
| Validator.TrimRightSpec | internal/controllers/halls.go:230 | trimming trailing space empties exactly the all-space strings |
| Validator.RequiredMeansNotBlank | internal/controllers/halls.go:230 | the "required" test `len(TrimSpace(s)) > 0` holds iff `s` is not all white space |
| Validator.CheckText | internal/controllers/halls.go:230-232 | the required, at-most and at-least checks of one field add its key exactly when the text is blank or out of range |
| Validator.TextOkMeaning | internal/controllers/theaters.go:282-284 | a text field passes iff it is not blank and its byte length is within the bounds |
| Regex.Search | pkg/validator/regex.go:7 | an unanchored one-class pattern matches iff some character is in the class |
| Regex.AllIn | pkg/validator/regex.go:8 | the anchored body holds iff every character is in the class |
| Regex.AlphanumRXMeaning | pkg/validator/regex.go:8 | AlphanumRX matches exactly the non-empty strings of ASCII letters and digits |
| Regex.CharClassPatternsMeaning | pkg/validator/regex.go:7-11 | LowerRX, UpperRX, NumberRX and SpecialRX each match iff the string has a character of their class |
| Regex.EmailRXAcceptsEmpty | pkg/validator/regex.go:6 | the starred email pattern matches the empty string |
| Regex.EmailRXAcceptsAddress | pkg/validator/regex.go:6 | an ordinary address, "jo@mail.com", matches |
| Regex.EmailRXCons | pkg/validator/regex.go:6 | one address in front of a matching string still matches |
| Regex.EmailRXConcat | pkg/validator/regex.go:6 | two matching strings written back to back match as one |
| Regex.EmailRXNeedsAt | pkg/validator/regex.go:6 | a non-empty matching string contains an `@` |
| SeatModel.CapacityIgnoresVersion | internal/models/seat.go:10-12 | capacity is the number of seats and does not depend on the version |
| HallModel.IsFree | internal/models/hall.go:36-50 | no conflict iff no stored show overlaps the candidate on half-open intervals; a conflict names one of the stored shows |
| HallModel.OverlapsSymmetric | internal/models/hall.go:38 | the overlap test is the same with the two shows swapped |
| HallModel.EmptyScheduleAcceptsAll | internal/models/hall.go:37-49 | a hall with no shows accepts every candidate |
| HallModel.TouchingIsNotConflict | internal/models/hall.go:38 | a show that ends when another starts does not conflict with it |
| HallModel.ReportsFirstConflict | internal/models/hall.go:37-46 | when several shows conflict, the error names the first of them in stored order |
| HallModel.WindowIsIgnored | internal/models/hall.go:36-50 | the verdict does not depend on the schedule's `From` and `To` |
| HallModel.IsFreeWithinWindow | internal/models/show_test.go:52-63 | corrected check: accepts iff the candidate lies within the window and overlaps no stored show |
| HallModel.TestCollisionRejected | internal/models/show_test.go:64-69 | the test's "collision" candidate is rejected for the Dec 6 12:00-15:00 show |
| HallModel.TestValidShowAccepted | internal/models/show_test.go:46-51 | the test's "valid show" candidate is accepted |
| HallModel.TestBeforeScheduleAccepted | internal/models/show_test.go:52-57 | IsFree accepts the "before schedule" candidate that the test expects to be rejected |
| HallModel.TestAfterScheduleAccepted | internal/models/show_test.go:58-63 | IsFree accepts the "after schedule" candidate that the test expects to be rejected |
| HallModel.TestCasesWithinWindow | internal/models/show_test.go:46-69 | the corrected check gives all four outcomes the test expects |
| ShowModel.ValidateShowFilter | internal/models/show.go:184-217 | each key is flagged exactly when its field is given and breaks its rule: sort among the 8 values, limit at most 100, text bounds 100/50/30 bytes |
| ShowModel.BuildShowQuery | internal/models/show.go:219-294 | panics iff the sort value is unknown; otherwise the limit defaults to 20, the offset is passed on, and there is an order iff a sort is given |
| ShowModel.ValidatedFilterBuilds | internal/models/show.go:197-273 | a filter that passed validation never reaches Build's panic |
| ShowModel.SortDirection | internal/models/show.go:259-281 | a "-" sort value orders its mapped column descending, any other ascending |
| ShowModel.SortByDateDescending | internal/models/show.go:267-277 | "-date" orders by `s.start_time DESC` |
| ShowModel.DefaultSearchWindow | internal/models/show.go:247-257 | without dates the search covers shows starting between now and a week from now |
| TheaterModel.HasHall | internal/models/theater.go:28-35 | true iff some hall of the theater has exactly that code |
| TheaterModel.Scanned | internal/models/theater.go:147-171 | the scanned rows are the fetched rows, one for one |
| TheaterModel.Find | internal/models/theater.go:109-190 | a query error is returned; no rows gives ErrNotFound; a scan error is returned; otherwise the theater has the last row's columns (every row is scanned into the same theater) and one hall per row with a hall id, in row order |
| TheaterModel.HallsOfAppend | internal/models/theater.go:173-182 | the halls of two runs of rows are the halls of the first followed by those of the second |
| TheaterModel.HallsOfMembers | internal/models/theater.go:173-182 | a hall is in the result iff some row carries its columns |
| TheaterModel.NoHallIdsNoHalls | internal/models/theater.go:173-182 | rows that all have a NULL hall id (a theater with no halls) give an empty hall list |
| TheaterModel.HallsOfBounded | internal/models/theater.go:142-183 | never more halls than rows |
| TheaterModel.FoundTheaterHasHall | internal/models/theater.go:28-35 | the found theater has a hall with a code iff one of its rows does |
| TheaterModel.ValidateTheaterFilter | internal/models/theater.go:263-281 | sort among name/city with optional "-", limit at most 100, name at most 50 and city at most 30 bytes |
| TheaterModel.BuildTheaterQuery | internal/models/theater.go:283-322 | the first condition excludes deleted theaters; there is an order iff a sort is given, on the sort value with a leading "-" stripped, descending iff it starts with "-"; the limit is the given one or 20; the offset is passed on |
| TheaterModel.ValidatedTheaterQuery | internal/models/theater.go:283-322 | a validated sort orders by name or city, descending iff it starts with "-"; the limit is at most 100 and 20 by default |
| TheaterModel.TheaterSearchConditions | internal/models/theater.go:283-322 | name and city become full-text conditions, in that order, after the deleted test |
| MovieModel.ValidateMovieFilter | internal/models/movie.go:188-222 | sort among six values, limit at most 100, title at most 100 and director at most 50 bytes, a given year within [1900, current year] |
| MovieModel.BuildMovieQuery | internal/models/movie.go:224-266 | there is an order iff a sort is given, on the sort value with a leading "-" stripped, descending iff it starts with "-"; the limit is the given one or 20; the offset is passed on; a year condition exists iff a year is given |
| MovieModel.ValidatedMovieQuery | internal/models/movie.go:245-259 | a validated sort orders by title, release_year or director, descending iff it starts with "-"; the limit is at most 100 and 20 by default |
| MovieModel.NoYearBefore1900 | internal/models/movie.go:214-221 | a year before 1900 is flagged whatever the clock says |
| ServiceCommon.Classify | internal/services/hall_service.go:17-22 | an error that is the store's sentinel becomes the service's sentinel; any other passes through unchanged |
| ServiceCommon.ClassifyHidesTarget | internal/services/hall_service.go:17-22 | a classified error is never the store's sentinel |
| ServiceCommon.AdminOwnsEverything | internal/services/helper.go:5-15 | an admin passes all three checks whatever the ids |
| ServiceCommon.ManagerMustOwn | internal/services/helper.go:5-15 | a manager passes the role check, and an ownership check iff their id is the recorded manager |
| ServiceCommon.CustomerIsNotManager | internal/services/helper.go:5-11 | a customer fails the role check and passes an ownership check only by owning the record |
| HallService.RuneString | internal/services/hall_service.go:127 | `string(rune(x))` is always one character |
| HallService.SeatingOf | internal/services/hall_service.go:122-133 | panics iff rows*seatsPerRow is negative; otherwise capacity rows*seatsPerRow, version 0, seat i has number i mod seatsPerRow and row letter 'A' + i div seatsPerRow |
| HallService.NewSeating | internal/services/hall_service.go:122-133 | the array filled in the loop is exactly the layout SeatingOf specifies |
| HallService.SeatBounds | internal/services/hall_service.go:127-128 | seat numbers lie in [0, seatsPerRow) and row letters run from 'A' to the last row's |
| HallService.RowIndexBound | internal/services/hall_service.go:127 | the row index of every seat is below the number of rows |
| HallService.SeatsDistinct | internal/services/hall_service.go:122-133 | no two seats share both row letter and number |
| HallService.RowsNonDecreasing | internal/services/hall_service.go:126-130 | row letters never decrease along the array |
| HallService.SeatsCollideBeyondLetters | internal/services/hall_service.go:126-127 | in a one-seat-a-row layout seats 55231 and 55232 are both row U+FFFD, number 0 |
| HallService.RowsDropBeyondLetters | internal/services/hall_service.go:126 | past the surrogate block the row letter drops from U+FFFD to U+E000 |
| HallService.DivMonotone | internal/services/hall_service.go:127 | integer division by a positive number is monotone |
| HallService.Find | internal/services/hall_service.go:14-25 | succeeds iff the lookup did; not-found becomes ErrHallNotFound, other errors pass through, and ErrNotFound never escapes |
| HallService.Create | internal/services/hall_service.go:27-60 | theater lookup, then the caller, then newSeating (which may panic), then the store; the stored hall is the caller's, with the new layout; a duplicate becomes the service's duplicate error |
| HallService.Update | internal/services/hall_service.go:62-93 | lookup, then the caller; only the name changes, and only when given; an edit conflict or duplicate becomes the service's edit-conflict error |
| HallService.Delete | internal/services/hall_service.go:95-120 | theater lookup, then the caller, then the delete by hall code; a missing hall becomes ErrHallNotFound |
| HallService.AdminReachesStore | internal/services/hall_service.go:27-120 | an admin reaches the store whoever manages the theater or hall: create writes the hall whenever rows*seatsPerRow is non-negative, update passes the hall-manager check, delete writes the code |
| HallService.CreatedHallSeating | internal/services/hall_service.go:40-47 | a created hall seats rows*seatsPerRow |
| ShowService.Create | internal/services/show_service.go:24-68 | hall, caller, movie, duration floor, then the store, in that order; a non-not-found hall error is returned as success; a failed movie lookup is returned classified (not found as MovieNotFound) with no write; an unparsable runtime panics; the stored show has the input's hall code and times |
| ShowService.DurationFloor | internal/services/show_service.go:55-57 | a show shorter than the movie's runtime is refused before the store; one at least as long reaches it |
| ShowService.RefusalIgnoresMovie | internal/services/show_service.go:25-38 | a refusal before the movie lookup does not depend on the movie |
| ShowService.CollidingShowIsStored | internal/services/show_service.go:55-67 | a show that overlaps one in the hall's schedule still reaches the store |
| ShowService.LookupFailureReportsSuccess | internal/services/show_service.go:30-31 | as written, a failed hall lookup reports success with nothing stored |
| ShowService.CreateReportingLookupErrors | internal/services/show_service.go:25-33 | corrected chain: a failed hall lookup is reported as an error, and success implies the show was handed to the store |
| ShowService.Find | internal/services/show_service.go:70-86 | success iff the show exists and belongs to the theater; a show of another theater is ErrShowNotFound |
| ShowService.Delete | internal/services/show_service.go:88-113 | theater lookup, then the caller, then the delete; a missing show becomes ErrShowNotFound |
| ShowService.DeleteCheckOrder | internal/services/show_service.go:89-97 | a missing theater is reported first, whatever the caller's rights |
| TheaterService.Create | internal/services/theater_service.go:30-35 | only managers and admins reach the store, whose answer is returned as it is |
| TheaterService.Update | internal/services/theater_service.go:38-73 | lookup, then the caller; exactly the given fields are overwritten and nothing else changes; an edit conflict becomes the service's edit-conflict error |
| TheaterService.Delete | internal/services/theater_service.go:75-91 | lookup, then the caller, then the delete, whose answer is returned as it is |
| TheaterService.CustomerCannotCreate | internal/services/theater_service.go:31-33 | a customer never reaches the store |
| TheaterService.DeleteLookupHidesNotFound | internal/services/theater_service.go:76-83 | a failed lookup never surfaces as the store's ErrNotFound |
| UserService.Signup | internal/services/user_service.go:22-63 | an unknown role is refused before hashing; the stored user carries the input and the hash; a duplicate becomes the service's duplicate error |
| UserService.StoredRoleIsValid | internal/services/user_service.go:23-30 | every stored user has one of the three roles |
| UserService.Login | internal/services/user_service.go:65-81 | succeeds iff the user exists and the password matches, returning that user; not-found becomes ErrUserNotFound, a mismatch ErrIncorrectPassword |
| UserService.LoginFailsWithoutUser | internal/services/user_service.go:66-73 | without a user for the email, login fails whatever the comparison would say |
| MovieService.Find | internal/services/movie_service.go:16-35 | a stored movie is returned; a store error other than ErrNotFound itself is returned; the provider is asked iff the store said exactly ErrNotFound; a provided movie is written and returned, with the write's error |
| MovieService.WrappedNotFoundIsReturned | internal/services/movie_service.go:20-21 | a wrapped not-found is returned as an error and the provider is not asked |
| MovieService.AnswerComesFromACollaborator | internal/services/movie_service.go:16-35 | the caller always gets a movie or an error, and the movie is one the store or the provider gave |
| HttpUtil.NewError | internal/httputil/error.go:11-23 | the body carries the status; a 500 shows a fixed message, any other status the error's text |
| HttpUtil.NewValidationError | internal/httputil/error.go:25-31 | always 400, with the field messages as given |
| HttpUtil.InternalErrorsMasked | internal/httputil/error.go:17-20 | two internal errors give the same response |
| HttpUtil.OtherErrorsShown | internal/httputil/error.go:12-15 | below 500, different error texts give different responses |
| ShowHandlers.ValidateCreateShow | internal/controllers/shows.go:211-218 | as written: the hall code is flagged unless required, alphanumeric and at most 10 bytes; the start unless before the end; the duration unless end - start is zero |
| ShowHandlers.CreateShowNeverValid | internal/controllers/shows.go:216-217 | no input passes the written checks |
| ShowHandlers.ValidateCreateShowInHours | internal/controllers/shows.go:216-217 | corrected: the duration is flagged unless it is a whole number of hours |
| ShowHandlers.WholeHoursAccepted | internal/controllers/shows.go:211-218 | the corrected checks accept a valid code and a show of whole hours |
| ShowHandlers.ThreeHourShowAccepted | internal/controllers/shows.go:211-218 | a three-hour show in hall "H1" passes the corrected checks |
| ShowHandlers.CreateShowStatus | internal/controllers/shows.go:97-111 | hall or movie not found gives 404, unauthorised 403, invalid duration 400, anything else 500 |
| ShowHandlers.CreateShow | internal/controllers/shows.go:74-117 | with the corrected checks (ValidateCreateShowInHours, not the written ones, which refuse every input): the service is called iff the checks pass; otherwise 400; then 201 or the service error's status |
| ShowHandlers.CreateShowRefusalStatuses | internal/controllers/shows.go:97-111 | end to end through the corrected service: a missing hall or movie is 404, a stranger 403, too short a show 400 |
| ShowHandlers.GetShowStatus | internal/controllers/shows.go:142-151 | 404 iff the error is ErrShowNotFound, else 500 |
| ShowHandlers.ShowOfOtherTheaterGets404 | internal/controllers/shows.go:142-151 | asking for a show under the wrong theater gives 404 |
| ShowHandlers.DeleteShowStatus | internal/controllers/shows.go:184-195 | unauthorised gives 409, a missing theater or show 404, anything else 500 |
| ShowHandlers.NonOwnerDeleteGets409 | internal/controllers/shows.go:184-195 | a caller who neither manages the theater nor is an admin gets 409 |
| HallHandlers.ValidateCreateHall | internal/controllers/halls.go:229-237 | the name is flagged unless it is 6-30 bytes and not blank; the code unless it is required, alphanumeric and at most 10 bytes |
| HallHandlers.ValidateUpdateHall | internal/controllers/halls.go:255-261 | no name, no error; a given name follows the create rule |
| HallHandlers.UpdateNameAsCreate | internal/controllers/halls.go:255-261 | a given new name is judged exactly as at creation |
| HallHandlers.CodeWithSpaceRefused | internal/controllers/halls.go:234-236 | a code containing a space is refused |
| HallHandlers.BindErrors | internal/controllers/halls.go:239-244 | the fixed messages name exactly the fields name and code, each with the message "required" |
| HallHandlers.UnboundBodyResponse | internal/controllers/halls.go:239-244 | a body that does not bind is answered 400 with "code": "required" |
| HallHandlers.GetHallStatus | internal/controllers/halls.go:38-47 | 404 iff the error is the store's ErrNotFound, else 500 |
| HallHandlers.MissingHallGets500 | internal/controllers/halls.go:38-47 | a missing hall, reported by the service as ErrHallNotFound, is answered 500 |
| HallHandlers.CreateHallStatus | internal/controllers/halls.go:99-111 | unauthorised gives 403, a missing theater 404, a duplicate 409, anything else 500 |
| HallHandlers.CreateHallRefusalStatuses | internal/controllers/halls.go:99-111 | end to end through the service: a missing theater is 404, a stranger 403, a taken code 409 |
| HallHandlers.UpdateHallStatus | internal/controllers/halls.go:159-172 | a missing hall gives 404, unauthorised 403, an edit conflict 409, anything else 500 |
| HallHandlers.DeleteHallStatus | internal/controllers/halls.go:204-215 | unauthorised gives 403, a missing hall or theater 404, anything else 500 |
| HallHandlers.DeleteMissingHallGets404 | internal/controllers/halls.go:204-215 | deleting a code the store does not have gives 404 |
| TheaterHandlers.ValidateCreateTheater | internal/controllers/theaters.go:281-293 | name 6-50, city 6-30 and address 6-100 bytes, none blank, each flagged exactly when broken |
| TheaterHandlers.ValidateUpdateTheater | internal/controllers/theaters.go:306-324 | the same rules, on the given fields only |
| TheaterHandlers.UpdateAsCreate | internal/controllers/theaters.go:281-324 | an update that gives every field is judged exactly as a creation |
| TheaterHandlers.AdminIsNotOwner | internal/controllers/theaters.go:184-191 | an admin who does not manage the theater passes the service's check but not the handler's |
| TheaterHandlers.CreateTheater | internal/controllers/theaters.go:95-129 | invalid input is 400 with no write; otherwise the stored theater is the input's, managed by the caller, and the answer is 201 or 500 |
| TheaterHandlers.CustomerCreatesTheater | internal/controllers/theaters.go:113-123 | a customer's valid theater reaches the store through the handler, although the service would refuse it |
| TheaterHandlers.LookupStatus | internal/controllers/theaters.go:173-182 | a missing theater is 404, any other lookup error 500 |
| TheaterHandlers.UpdateTheater | internal/controllers/theaters.go:148-217 | checks, lookup, then ownership without an admin bypass (403); exactly the given fields are overwritten; an edit conflict is 409, another store error 500, success 200 |
| TheaterHandlers.DeleteTheater | internal/controllers/theaters.go:233-269 | lookup, then ownership (403), then the delete, any error of which is 500 |
| MovieHandlers.ImdbHostMeaning | internal/controllers/movies.go:293-298 | a host passes iff it is imdb.com or ends in ".imdb.com" |
| MovieHandlers.CheckImdbLink | internal/controllers/movies.go:286-298 | the link is flagged iff it does not parse, its scheme is not https, or its host is not IMDb's; no other key changes |
| MovieHandlers.CheckDuration | internal/controllers/movies.go:282-284 | the duration is flagged iff it does not parse as a Go duration |
| MovieHandlers.CheckTitle | internal/controllers/movies.go:267-269 | the title is flagged unless it is 6-100 bytes and not blank |
| MovieHandlers.CheckDirector | internal/controllers/movies.go:271-273 | the director is flagged unless it is 6-50 bytes and not blank |
| MovieHandlers.ValidateCreateMovieAsWritten | internal/controllers/movies.go:266-299 | as written: panics iff the release year is missing |
| MovieHandlers.ValidateCreateMovie | internal/controllers/movies.go:266-299 | corrected: each key is flagged exactly when its rule is broken, and a missing year is flagged |
| MovieHandlers.CorrectedCreateAgrees | internal/controllers/movies.go:266-299 | wherever the written check returns, the corrected one gives the same errors |
| MovieHandlers.MissingYearPanics | internal/controllers/movies.go:275-280 | an otherwise valid body without a year panics as written and is flagged by the corrected check |
| MovieHandlers.ValidateUpdateMovie | internal/controllers/movies.go:314-357 | the create rules, applied to the given fields only |
| MovieHandlers.FullUpdateAsCreate | internal/controllers/movies.go:266-357 | an update that gives every field is judged exactly as a creation |
| MovieHandlers.UpdateMovie | internal/controllers/movies.go:157-223 | checks, then lookup (404/500); exactly the given fields are overwritten; an edit conflict is 409, another store error 500, success 200 |
| UserHandlers.CheckPassword | internal/controllers/users.go:204-226 | the password is flagged unless it is 8-50 bytes, not blank, and has a lower-case letter, an upper-case letter, a digit and a special character |
| UserHandlers.CheckEmail | internal/controllers/users.go:198-199 | the email is flagged unless it is not blank and matched by EmailRX |
| UserHandlers.ValidateSignup | internal/controllers/users.go:191-227 | username and name not blank and at most 50 bytes, a valid email, role not blank and at most 10 bytes, a valid password |
| UserHandlers.ValidateLogin | internal/controllers/users.go:238-265 | the signup rules for email and password |
| UserHandlers.LoginChecksAsSignup | internal/controllers/users.go:191-265 | login flags the email and password exactly as signup does |
| UserHandlers.ValidPasswordClasses | internal/controllers/users.go:204-226 | a passing password has a character of each of the four classes |
| UserHandlers.ValidEmailHasAt | internal/controllers/users.go:198-199 | a passing email contains an `@` |
| UserHandlers.SignupStatus | internal/controllers/users.go:48-60 | an invalid role gives 400, a duplicate 409, anything else 500 |
| UserHandlers.Signup | internal/controllers/users.go:30-69 | invalid input is 400 with no write; otherwise the write is the service's, and the answer is 201 iff the service succeeds |
| UserHandlers.SignupRefusalStatuses | internal/controllers/users.go:47-60 | end to end: an unknown role is 400 with nothing stored, a taken username or email 409 |
| UserHandlers.SignupAsAdmin | internal/controllers/users.go:47-68 | a valid request with role "admin" creates an admin |
| UserHandlers.LoginStatus | internal/controllers/users.go:102-111 | an unknown user or a wrong password gives 403, anything else 500 |
| UserHandlers.Login | internal/controllers/users.go:84-117 | 200 iff the checks pass and the service logs the user in, and only then is their id put in the session cache |
| UserHandlers.LoginRefusalsAlike | internal/controllers/users.go:102-106 | an unknown email and a wrong password get the same status |
| SessionCache.Cache.constructor | pkg/cache/cache.go:20-31 | a new cache is empty |
| SessionCache.Cache.Get | pkg/cache/cache.go:33-47 | a miss gives "" and changes nothing; a hit gives the value and refreshes its stamp |
| SessionCache.Cache.Set | pkg/cache/cache.go:49-57 | the key maps to the value stamped now; nothing else changes |
| SessionCache.Cache.Del | pkg/cache/cache.go:59-64 | the key is gone; nothing else changes |
| SessionCache.Cache.Sweep | pkg/cache/cache.go:75-81 | the table becomes exactly its entries idle for at most 15 minutes |
| SessionCache.SetSurvivesSweep | pkg/cache/cache.go:49-81 | an entry set now survives a sweep up to 15 minutes later, with its value |
| SessionCache.SweepIdempotent | pkg/cache/cache.go:76-80 | a second sweep at the same time removes nothing more |
| SessionCache.SweepOnlyRemoves | pkg/cache/cache.go:76-80 | a sweep only removes entries and leaves the kept ones unchanged |
| SessionCache.GetKeepsAlive | pkg/cache/cache.go:42-81 | a hit keeps its entry alive through a sweep within 15 minutes |

## Left out

- SQL statements, their execution and the database schema. The store is an input: a fetched value, an error or nothing.
- Ids and timestamps the store assigns. They are zero in the values handed to the store.
- The OMDb client and the provider interface. The provider's answer is an input.
- bcrypt hashing and comparison (internal/models/password.go). Both are inputs.
- `time.Now`, `time.ParseDuration` and `url.Parse`. Their results are inputs.
- The cache's mutex, its background goroutine and its ticker. `Sweep` is one tick with the time as an argument. The read lock that `Get` holds while taking the write lock (a deadlock in Go) is not modelled.
- The random session id of internal/controllers/helper.go and the session cookie. The login handler's write is the user id stored under that id.
- The middlewares and the route table. The authenticated user is an argument of the handlers.
- JSON binding (`ShouldBind`). An unbindable body is modelled only for the hall handlers' fixed messages.
- The parsing of path ids and its 400 answer.
- The search, get-movie, create-movie and delete-movie handlers. Each only forwards the store's answer.
- The validator's error messages. `Validator.Errors` keeps the keys of the failed fields. Go's validator keeps the first message per key, which the key set does not record.
- The manager's user columns that `TheaterModel.Find` scans. They are not part of the theater.
- The check on `rows.Err` after the loop: the Go code does not make one.
- Aliasing: the Go merges change the fetched record in place. The model changes a copy of the value and returns it.
- 64-bit overflow of `time.Duration` and the saturation of `Time.Sub`. Times are unbounded integers.
- HallService.SeatBounds: states the bounds only for layouts whose row letters stay below the surrogate block (`PlainLetters`). Beyond that, Go writes U+FFFD, which the model keeps but does not bound.
- HallService.SeatsDistinct: holds only under `PlainLetters`. Nothing bounds the rows, and past 55231 rows the letters become U+FFFD and seats coincide (HallService.SeatsCollideBeyondLetters).
- HallService.RowsNonDecreasing: holds only under `PlainLetters`. Past the surrogate block the letters drop from U+FFFD to U+E000 (HallService.RowsDropBeyondLetters).
- HallService.SeatingOf: does not model the 64-bit overflow of `rows*seatsPerRow` inside `make`. The product is an unbounded integer, so a wrapped product that turns non-negative is not captured.
- HallService.RuneString: does not model the truncation to int32 inside `rune(...)` that happens before the U+FFFD rule. Only values whose int32 truncation is the value itself are mapped as Go maps them.
- UserHandlers.Signup: states the status and the write. The 400 response's "role" field for an invalid role is not stated.

## Findings

| source | as written | input that shows it | evidently intended | confidence | as-written member | corrected member |
|---|---|---|---|---|---|---|
| internal/models/hall.go:36-50 | `IsFree` tests overlaps only and never reads `From` or `To` | the test's "before schedule" show, Dec 4 03:00-06:00, in a schedule from Dec 5 to Dec 12 | a show outside the window is refused, as show_test.go:52-63 expects | not executed; high | HallModel.TestBeforeScheduleAccepted | HallModel.IsFreeWithinWindow |
| internal/controllers/shows.go:216-217 | the start must be before the end and `end - start` must be zero | any input, for example a three-hour show in hall "H1" | the length is checked against a unit; a whole number of hours is assumed here | not executed; high that nothing passes, low on the intended rule | ShowHandlers.CreateShowNeverValid | ShowHandlers.ValidateCreateShowInHours |
| internal/controllers/movies.go:275-280 | a nil release year is recorded as required, then dereferenced | a body without `release_year` | the range check applies only when a year is given | not executed; high | MovieHandlers.ValidateCreateMovieAsWritten | MovieHandlers.ValidateCreateMovie |
| internal/services/show_service.go:30-31 | a hall lookup error other than not-found returns nil | the hall lookup fails with "connection refused" | the error is returned | not executed; high | ShowService.LookupFailureReportsSuccess | ShowService.CreateReportingLookupErrors |
