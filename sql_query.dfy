/**
 * The parts of a search query that the filters' `Build` methods decide: the
 * WHERE conditions, the ORDER BY clause, LIMIT and OFFSET. The SQL text itself,
 * rendered by the query-builder library, is not modelled.
 */
module SqlQuery {
  import opened Wrappers

  /** LIMIT used when the filter gives none. */
  const DefaultLimit: nat := 20

  datatype OrderBy = Asc(column: string) | Desc(column: string)

  datatype Condition =
    | NotDeleted                            // deleted_at IS NULL
    | TextMatch(column: string, term: string) // to_tsvector(column) @@ plainto_tsquery(term)
    | YearIs(year: int)                     // release_year = year
    | StartsAfter(time: int)                // s.start_time > time
    | StartsBefore(time: int)               // s.start_time < time

  datatype Query = Query(conditions: seq<Condition>, order: Option<OrderBy>, limit: nat, offset: Option<nat>)

  /** The ORDER BY for a sort value: a leading "-" is cut off and orders DESC. */
  function SortOrder(key: string): OrderBy
  {
    if |key| > 0 && key[0] == '-' then Desc(key[1..]) else Asc(key)
  }

  function LimitOrDefault(limit: Option<nat>): nat
  {
    if limit.Some? then limit.value else DefaultLimit
  }

  /** An optional full-text condition on `column`. */
  function MatchIfGiven(column: string, term: Option<string>): seq<Condition>
  {
    if term.Some? then [TextMatch(column, term.value)] else []
  }
}
