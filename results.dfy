/** The season data the standings handlers read from the data provider,
    as plain values: one schedule line per round, with the outcome of
    loading its race and its sprint session. */
module Results {
  import opened Wrappers

  /** One row of a session's result table. `position` is None when the
      handler's `int(r["Position"])` cannot convert the cell (a missing or
      non-numeric value), which raises part-way through the table; any
      integer that converts is kept as it is.
      `fastestLapTime` is in milliseconds and None when the cell is empty. */
  datatype Row = Row(
    position: Option<int>,
    driverNumber: string,
    fullName: string,
    teamName: string,
    fastestLapTime: Option<nat>)

  /** What loading one session yields: an exception, a session without a
      result table (`results is None`), or the table's rows in table order. */
  datatype Fetch = Failed | NoTable | Rows(rows: seq<Row>)

  /** One line of the season schedule: its round number, its `EventFormat`
      tag, and what loading its race ("R") and sprint ("S") sessions yields. */
  datatype Round = Round(number: int, format: string, race: Fetch, sprint: Fetch)

  /** The two kinds of session that score points. */
  datatype SessionKind = Race | Sprint

  /** Only these two event formats take part in the standings and the roster. */
  predicate Eligible(format: string)
  {
    format == "conventional" || format == "sprint"
  }

  /** Driver standings key by driver number and show the full name;
      constructor standings key by team name, which is also their label. */
  datatype Keying = ByDriver | ByTeam

  function KeyOf(keying: Keying, row: Row): string
  {
    match keying
    case ByDriver => row.driverNumber
    case ByTeam => row.teamName
  }

  function NameOf(keying: Keying, row: Row): string
  {
    match keying
    case ByDriver => row.fullName
    case ByTeam => row.teamName
  }
}
