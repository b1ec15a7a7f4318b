/**
 * Theaters (internal/models/theater.go): the hall lookup by code, the fold of the
 * joined theater/hall rows into one theater, and the theater search filter.
 */
module TheaterModel {
  import opened Wrappers
  import opened Errors
  import opened Validator
  import opened SqlQuery
  import opened HallModel

  datatype Theater = Theater(
    id: int,
    managerId: int,
    name: string,
    city: string,
    address: string,
    createdAt: int,
    updatedAt: int,
    halls: seq<Hall>)

  /** `Theater.HasHall`: some hall of the theater has exactly this code. */
  function HasHall(t: Theater, code: string): (found: bool)
    ensures found <==> exists i :: 0 <= i < |t.halls| && t.halls[i].code == code
    decreases |t.halls|
  {
    if t.halls == [] then false
    else if t.halls[0].code == code then true
    else
      var rest := t.(halls := t.halls[1..]);
      assert forall i :: 0 < i < |t.halls| ==> t.halls[i] == rest.halls[i - 1];
      HasHall(rest, code)
  }

  // ----- The row fold of TheaterModel.Find -----

  /** The hall columns of a joined row; `None` when the LEFT JOIN found no hall (a NULL hall id). */
  datatype HallColumns = HallColumns(id: int, theaterId: int, name: string, code: string, createdAt: int, updatedAt: int)

  /** One row of the theater/hall join: the theater's columns and maybe a hall's. */
  datatype TheaterRow = TheaterRow(
    managerId: int,
    name: string,
    city: string,
    address: string,
    createdAt: int,
    updatedAt: int,
    hall: Option<HallColumns>)

  /** The hall a row with a hall id stands for; the columns the query does not select keep their zero values. */
  function HallOf(h: HallColumns): Hall
  {
    Hall(h.id, h.theaterId, 0, h.name, h.code, h.createdAt, h.updatedAt, None)
  }

  /** The halls of a sequence of rows: one per row with a hall id, in row order. */
  function HallsOf(rows: seq<TheaterRow>): seq<Hall>
  {
    if rows == [] then []
    else
      var last := rows[|rows| - 1];
      HallsOf(rows[..|rows| - 1]) + (if last.hall.Some? then [HallOf(last.hall.value)] else [])
  }

  predicate AllScanned(rows: seq<Result<TheaterRow, Error>>)
  {
    forall i :: 0 <= i < |rows| ==> rows[i].Success?
  }

  function Scanned(rows: seq<Result<TheaterRow, Error>>): (r: seq<TheaterRow>)
    requires AllScanned(rows)
    ensures |r| == |rows| && forall i :: 0 <= i < |rows| ==> r[i] == rows[i].value
  {
    if rows == [] then [] else Scanned(rows[..|rows| - 1]) + [rows[|rows| - 1].value]
  }

  /**
   * `TheaterModel.Find` after the query: `queried` is the error of the query itself and
   * `rows` what each `rows.Scan` delivered, in order. Every row overwrites the
   * theater's own columns, a row with a hall id appends that hall, and no row at all
   * means the theater does not exist.
   */
  method Find(id: int, queried: Option<Error>, rows: seq<Result<TheaterRow, Error>>) returns (r: Result<Theater, Error>)
    ensures queried.Some? ==> r == Failure(queried.value)
    ensures queried.None? && rows == [] ==> r == Failure(NotFound)
    ensures queried.None? && rows != [] && AllScanned(rows) ==>
      var last := rows[|rows| - 1].value;
      r == Success(Theater(id, last.managerId, last.name, last.city, last.address, last.createdAt, last.updatedAt,
        HallsOf(Scanned(rows))))
    ensures queried.None? && !AllScanned(rows) ==>
      exists i :: 0 <= i < |rows| && AllScanned(rows[..i]) && rows[i].Failure? && r == Failure(rows[i].error)
  {
    if queried.Some? {
      return Failure(queried.value);
    }
    var theater := Theater(id, 0, "", "", "", 0, 0, []);
    var first := true;
    var i := 0;
    while i < |rows|
      invariant 0 <= i <= |rows|
      invariant first <==> i == 0
      invariant AllScanned(rows[..i])
      invariant theater.id == id && theater.halls == HallsOf(Scanned(rows[..i]))
      invariant i > 0 ==> var row := rows[i - 1].value;
        theater.managerId == row.managerId && theater.name == row.name && theater.city == row.city
        && theater.address == row.address && theater.createdAt == row.createdAt && theater.updatedAt == row.updatedAt
    {
      first := false;
      if rows[i].Failure? {
        return Failure(rows[i].error);
      }
      var row := rows[i].value;
      theater := theater.(managerId := row.managerId, name := row.name, city := row.city,
        address := row.address, createdAt := row.createdAt, updatedAt := row.updatedAt);
      if row.hall.Some? {
        theater := theater.(halls := theater.halls + [HallOf(row.hall.value)]);
      }
      assert rows[..i + 1][..i] == rows[..i];
      assert Scanned(rows[..i + 1]) == Scanned(rows[..i]) + [row];
      i := i + 1;
    }
    assert rows[..i] == rows;
    if first {
      return Failure(NotFound);
    }
    return Success(theater);
  }

  /** The halls of two runs of rows are the halls of the first run followed by those of the second. */
  lemma {:induction false} HallsOfAppend(a: seq<TheaterRow>, b: seq<TheaterRow>)
    ensures HallsOf(a + b) == HallsOf(a) + HallsOf(b)
    decreases |b|
  {
    if b == [] {
      assert a + b == a;
    } else {
      var b' := b[..|b| - 1];
      assert (a + b)[..|a + b| - 1] == a + b';
      HallsOfAppend(a, b');
    }
  }

  /** A hall is in the fold's result exactly when some row carries its columns. */
  lemma {:induction false} HallsOfMembers(rows: seq<TheaterRow>, h: Hall)
    ensures h in HallsOf(rows) <==> exists i :: 0 <= i < |rows| && rows[i].hall.Some? && HallOf(rows[i].hall.value) == h
    decreases |rows|
  {
    if rows != [] {
      var init := rows[..|rows| - 1];
      HallsOfMembers(init, h);
      assert forall i :: 0 <= i < |init| ==> init[i] == rows[i];
    }
  }

  /** Rows that all have a NULL hall id give a theater with an empty list of halls. */
  lemma {:induction false} NoHallIdsNoHalls(rows: seq<TheaterRow>)
    requires forall i :: 0 <= i < |rows| ==> rows[i].hall.None?
    ensures HallsOf(rows) == []
    decreases |rows|
  {
    if rows != [] {
      NoHallIdsNoHalls(rows[..|rows| - 1]);
    }
  }

  /** One hall per row with a hall id: never more halls than rows. */
  lemma {:induction false} HallsOfBounded(rows: seq<TheaterRow>)
    ensures |HallsOf(rows)| <= |rows|
    decreases |rows|
  {
    if rows != [] {
      HallsOfBounded(rows[..|rows| - 1]);
    }
  }

  /** The theater Find assembles has a hall with a given code exactly when one of its rows does. */
  lemma FoundTheaterHasHall(t: Theater, rows: seq<TheaterRow>, code: string)
    requires t.halls == HallsOf(rows)
    ensures HasHall(t, code) <==> exists i :: 0 <= i < |rows| && rows[i].hall.Some? && rows[i].hall.value.code == code
  {
    if HasHall(t, code) {
      var k :| 0 <= k < |t.halls| && t.halls[k].code == code;
      HallsOfMembers(rows, t.halls[k]);
    }
    if exists i :: 0 <= i < |rows| && rows[i].hall.Some? && rows[i].hall.value.code == code {
      var i :| 0 <= i < |rows| && rows[i].hall.Some? && rows[i].hall.value.code == code;
      HallsOfMembers(rows, HallOf(rows[i].hall.value));
      var k :| 0 <= k < |t.halls| && t.halls[k] == HallOf(rows[i].hall.value);
    }
  }

  // ----- The theater search filter -----

  datatype TheaterFilter = TheaterFilter(
    name: Option<string>,
    city: Option<string>,
    sortBy: Option<string>,
    limit: Option<nat>,
    offset: Option<nat>)

  /** `TheaterFilter.Validate`. */
  function ValidateTheaterFilter(f: TheaterFilter): (errs: Validator.Errors)
    ensures errs <= {"sort", "limit", "name", "city"}
    ensures "sort" in errs <==> (f.sortBy.Some? && f.sortBy.value !in ["name", "-name", "city", "-city"])
    ensures "limit" in errs <==> f.limit.Some? && f.limit.value > 100
    ensures "name" in errs <==> f.name.Some? && ByteLen(f.name.value) > 50
    ensures "city" in errs <==> f.city.Some? && ByteLen(f.city.value) > 30
  {
    var v0: Validator.Errors := {};
    var v1 := if f.sortBy.Some? then Check(v0, f.sortBy.value in ["name", "-name", "city", "-city"], "sort") else v0;
    var v2 := if f.limit.Some? then Check(v1, f.limit.value <= 100, "limit") else v1;
    var v3 := if f.name.Some? then Check(v2, ByteLen(f.name.value) <= 50, "name") else v2;
    if f.city.Some? then Check(v3, ByteLen(f.city.value) <= 30, "city") else v3
  }

  /** The decisions of `TheaterFilter.Build`; the sort value is used as given, without a lookup. */
  function BuildTheaterQuery(f: TheaterFilter): (q: Query)
    ensures q.order.Some? <==> f.sortBy.Some?
    ensures f.sortBy.Some? ==> (q.order.value.Desc? <==> |f.sortBy.value| > 0 && f.sortBy.value[0] == '-')
    ensures f.sortBy.Some? ==> (q.order.value.column ==
      if |f.sortBy.value| > 0 && f.sortBy.value[0] == '-' then f.sortBy.value[1..] else f.sortBy.value)
    ensures q.limit == (if f.limit.Some? then f.limit.value else DefaultLimit)
    ensures |q.conditions| >= 1 && q.conditions[0] == NotDeleted
    ensures q.offset == f.offset
  {
    var conditions := [NotDeleted] + MatchIfGiven("name", f.name) + MatchIfGiven("city", f.city);
    var order := if f.sortBy.Some? then Some(SortOrder(f.sortBy.value)) else None;
    Query(conditions, order, LimitOrDefault(f.limit), f.offset)
  }

  /**
   * A validated sort orders by "name" or "city", descending exactly when the value
   * starts with "-"; a validated query asks for at most 100 rows, and for 20 when no
   * limit is given.
   */
  lemma ValidatedTheaterQuery(f: TheaterFilter)
    requires ValidateTheaterFilter(f) == {}
    ensures f.sortBy.Some? ==> BuildTheaterQuery(f).order.value.column in {"name", "city"}
    ensures f.sortBy.Some? ==> (BuildTheaterQuery(f).order.value.Desc? <==> f.sortBy.value[0] == '-')
    ensures BuildTheaterQuery(f).limit <= 100
    ensures f.limit.None? ==> BuildTheaterQuery(f).limit == DefaultLimit
  {
    assert "sort" !in ValidateTheaterFilter(f);
    assert "limit" !in ValidateTheaterFilter(f);
    if f.sortBy.Some? {
      assert "name"[..] == "-name"[1..];
      assert "city"[..] == "-city"[1..];
    }
  }

  /** Name and city become full-text conditions, in that order, after the deleted_at test. */
  lemma TheaterSearchConditions(f: TheaterFilter)
    requires f.name.Some? && f.city.Some?
    ensures BuildTheaterQuery(f).conditions == [NotDeleted, TextMatch("name", f.name.value), TextMatch("city", f.city.value)]
  {
  }
}
