/** Points awarded for one row of a result table: the race and sprint
    points tables and the fastest-lap bonus. */
module Scoring {
  import opened Wrappers
  import opened Results

  /** Race points for positions 1 to 10. */
  const RaceTable: seq<nat> := [25, 18, 15, 12, 10, 8, 6, 4, 2, 1]

  /** Sprint points for positions 1 to 8. */
  const SprintTable: seq<nat> := [8, 7, 6, 5, 4, 3, 2, 1]

  /** Python's `table[i]`: a negative index counts from the end. */
  function IndexFromEither(table: seq<nat>, i: int): (r: nat)
    requires -|table| <= i < |table|
    ensures r in table
  {
    if i < 0 then table[|table| + i] else table[i]
  }

  /** Table points for a race finish: `F1_POINTS[pos - 1]` up to tenth
      place, nothing beyond. A position of 0 down to -9 reads the table
      from its end; one below -9 raises, see Scores. */
  function RacePoints(pos: int): (r: nat)
    requires pos >= -9
    ensures 0 < r <==> pos <= 10
    ensures r <= 25
  {
    if pos <= 10 then IndexFromEither(RaceTable, pos - 1) else 0
  }

  /** Table points for a sprint finish: `SPRINT_POINTS[pos - 1]` up to
      eighth place, nothing beyond; positions of 0 down to -7 read the
      table from its end. */
  function SprintPoints(pos: int): (r: nat)
    requires pos >= -7
    ensures 0 < r <==> pos <= 8
    ensures r <= 8
  {
    if pos <= 8 then IndexFromEither(SprintTable, pos - 1) else 0
  }

  /** Scoring the row does not raise: its position converts, and the
      table lookup it reaches is within the table's negative range. */
  predicate Scores(kind: SessionKind, row: Row)
  {
    row.position.Some? &&
    match kind
    case Race => row.position.value >= 1 - |RaceTable|
    case Sprint => row.position.value >= 1 - |SprintTable|
  }

  /** Scoring the whole table does not raise. */
  predicate AllScored(kind: SessionKind, rows: seq<Row>)
  {
    forall i :: 0 <= i < |rows| ==> Scores(kind, rows[i])
  }

  /** A position of 0 or below, where it does not raise, scores as the
      position one table length further down: a position of 0 earns what
      tenth place earns in a race and what eighth place earns in a sprint. */
  lemma NonPositivePositionsWrap(pos: int)
    ensures -9 <= pos <= 0 ==> RacePoints(pos) == RacePoints(pos + 10)
    ensures -7 <= pos <= 0 ==> SprintPoints(pos) == SprintPoints(pos + 8)
    ensures RacePoints(0) == 1 && RacePoints(-9) == 25 && SprintPoints(0) == 1
  {
  }

  /** A better finish never earns fewer points, and inside the scoring
      places it earns strictly more. */
  lemma {:induction false} TablesStrictlyDecrease(p: int, q: int)
    requires 1 <= p < q
    ensures q <= 10 ==> RacePoints(p) > RacePoints(q)
    ensures RacePoints(p) >= RacePoints(q)
    ensures q <= 8 ==> SprintPoints(p) > SprintPoints(q)
    ensures SprintPoints(p) >= SprintPoints(q)
  {
    if q <= 10 {
      assert p <= 9;
      assert RaceTable[p - 1] > RaceTable[q - 1] by {
        if p == 1 {} else if p == 2 {} else if p == 3 {} else if p == 4 {}
        else if p == 5 {} else if p == 6 {} else if p == 7 {} else if p == 8 {} else {}
      }
    }
    if q <= 8 {
      assert SprintTable[p - 1] > SprintTable[q - 1] by {
        if p == 1 {} else if p == 2 {} else if p == 3 {} else if p == 4 {}
        else if p == 5 {} else if p == 6 {} else {}
      }
    }
  }

  /** The smallest fastest-lap time of the table, None when no row has one
      (the minimum skips empty cells). */
  function MinLapTime(rows: seq<Row>): (m: Option<nat>)
    ensures m.None? <==> forall i :: 0 <= i < |rows| ==> rows[i].fastestLapTime.None?
    ensures m.Some? ==> exists i :: 0 <= i < |rows| && rows[i].fastestLapTime == m
    ensures m.Some? ==> forall i :: 0 <= i < |rows| && rows[i].fastestLapTime.Some? ==>
                          m.value <= rows[i].fastestLapTime.value
    decreases |rows|
  {
    if rows == [] then None
    else
      var rest := MinLapTime(rows[1..]);
      assert forall i :: 1 <= i < |rows| ==> rows[i] == rows[1..][i - 1];
      match rows[0].fastestLapTime
      case None => rest
      case Some(t) => if rest.Some? && rest.value < t then rest else Some(t)
  }

  /** The index of the first row, in table order, whose fastest-lap time is t. */
  function FirstWithLapTime(rows: seq<Row>, t: nat): (i: nat)
    requires exists j :: 0 <= j < |rows| && rows[j].fastestLapTime == Some(t)
    ensures i < |rows| && rows[i].fastestLapTime == Some(t)
    ensures forall j :: 0 <= j < i ==> rows[j].fastestLapTime != Some(t)
    decreases |rows|
  {
    if rows[0].fastestLapTime == Some(t) then 0
    else
      assert forall j :: 1 <= j < |rows| ==> rows[j] == rows[1..][j - 1];
      1 + FirstWithLapTime(rows[1..], t)
  }

  /** Row i holds the fastest lap: it has the smallest fastest-lap time of
      the table, and no earlier row has that same time. */
  predicate HoldsFastestLap(rows: seq<Row>, i: int)
  {
    && 0 <= i < |rows|
    && rows[i].fastestLapTime.Some?
    && (forall j :: 0 <= j < |rows| && rows[j].fastestLapTime.Some? ==>
          rows[i].fastestLapTime.value <= rows[j].fastestLapTime.value)
    && (forall j :: 0 <= j < i ==> rows[j].fastestLapTime != rows[i].fastestLapTime)
  }

  /** The driver number of the fastest-lap holder of a race table: the
      first row, in table order, with the minimum fastest-lap time; no
      holder when no row has a time. */
  function FastestLapHolder(rows: seq<Row>): (h: Option<string>)
    ensures h.None? <==> forall i :: 0 <= i < |rows| ==> rows[i].fastestLapTime.None?
    ensures h.Some? ==> exists i :: HoldsFastestLap(rows, i) && h.value == rows[i].driverNumber
  {
    match MinLapTime(rows)
    case None => None
    case Some(t) =>
      var i := FirstWithLapTime(rows, t);
      assert HoldsFastestLap(rows, i);
      Some(rows[i].driverNumber)
  }

  /** At most one row of a table holds the fastest lap. */
  lemma {:induction false} FastestLapRowUnique(rows: seq<Row>, i: int, j: int)
    requires HoldsFastestLap(rows, i) && HoldsFastestLap(rows, j)
    ensures i == j
  {
    // Each time is at most the other, so the two times are equal; the
    // later of the two rows would then repeat an earlier row's time.
    assert rows[i].fastestLapTime.value <= rows[j].fastestLapTime.value;
    assert rows[j].fastestLapTime.value <= rows[i].fastestLapTime.value;
  }

  /** The points one scored row earns: the table points of its session,
      plus one in a race when its driver number is the fastest-lap
      holder's and it finished in the top ten. Sprints have no bonus. */
  function RowPoints(kind: SessionKind, row: Row, holder: Option<string>): (r: nat)
    requires Scores(kind, row)
    ensures kind == Race ==> (0 < r <==> row.position.value <= 10) && r <= 26
    ensures kind == Sprint ==> (0 < r <==> row.position.value <= 8) && r <= 8
  {
    var pos := row.position.value;
    match kind
    case Race => RacePoints(pos) + (if holder == Some(row.driverNumber) && pos <= 10 then 1 else 0)
    case Sprint => SprintPoints(pos)
  }

  /** The bonus: a race row earns one point above its table points exactly
      when it belongs to the fastest-lap holder and finished in the top ten. */
  lemma FastestLapBonus(row: Row, holder: Option<string>)
    requires Scores(Race, row)
    ensures RowPoints(Race, row, holder) == RacePoints(row.position.value) + 1 <==>
              holder == Some(row.driverNumber) && row.position.value <= 10
    ensures RowPoints(Race, row, holder) == RacePoints(row.position.value) <==>
              !(holder == Some(row.driverNumber) && row.position.value <= 10)
  {
  }

  /** Sprints never award a fastest-lap bonus: whoever holds it, a sprint
      row earns its table points. */
  lemma SprintHasNoBonus(row: Row, holder: Option<string>)
    requires Scores(Sprint, row)
    ensures RowPoints(Sprint, row, holder) == SprintPoints(row.position.value)
    ensures RowPoints(Sprint, row, holder) == RowPoints(Sprint, row, None)
  {
  }

  /** In a race table whose driver numbers are distinct, at most one row
      earns the bonus. */
  lemma {:induction false} BonusAtMostOnce(rows: seq<Row>, i: int, j: int)
    requires AllScored(Race, rows)
    requires forall a, b :: 0 <= a < b < |rows| ==> rows[a].driverNumber != rows[b].driverNumber
    requires 0 <= i < |rows| && 0 <= j < |rows|
    requires RowPoints(Race, rows[i], FastestLapHolder(rows)) == RacePoints(rows[i].position.value) + 1
    requires RowPoints(Race, rows[j], FastestLapHolder(rows)) == RacePoints(rows[j].position.value) + 1
    ensures i == j
    ensures HoldsFastestLap(rows, i)
  {
    FastestLapBonus(rows[i], FastestLapHolder(rows));
    FastestLapBonus(rows[j], FastestLapHolder(rows));
    var h := FastestLapHolder(rows);
    var k :| HoldsFastestLap(rows, k) && h.value == rows[k].driverNumber;
    assert rows[i].driverNumber == rows[k].driverNumber;
    assert rows[j].driverNumber == rows[k].driverNumber;
  }

  /** A race winner who also set the fastest lap scores 26. */
  lemma WinnerWithFastestLapScores26(row: Row)
    requires row.position == Some(1)
    ensures RowPoints(Race, row, Some(row.driverNumber)) == 26
  {
  }

  /** A sprint winner scores 8, with no bonus possible. */
  lemma SprintWinnerScores8(row: Row, holder: Option<string>)
    requires row.position == Some(1)
    ensures RowPoints(Sprint, row, holder) == 8
  {
  }
}
