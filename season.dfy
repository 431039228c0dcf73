/** The season aggregation of the standings handlers, as functions: how
    one result table, one round and the whole schedule change the running
    totals and the no-data log. Independent reference definitions say what
    each entrant's total, stored name and the log must be, and lemmas tie
    the two together. */
module Season {
  import opened Wrappers
  import opened Results
  import opened Scoring
  import opened Tallies

  /** A no-data label: "Race-n" or "Sprint-n" for round n. */
  datatype NoData = RaceMissing(round: int) | SprintMissing(round: int)

  /** The fastest-lap holder a session's rows are scored against: the
      race's holder, none in a sprint. */
  function HolderFor(kind: SessionKind, rows: seq<Row>): Option<string>
  {
    if kind == Race then FastestLapHolder(rows) else None
  }

  /** Scores the rows of one table in order, adding each positive amount
      under the row's key; stops at the first position that does not
      convert, keeping what was added before it. The flag says whether the
      whole table was scored (false: the loop raised). */
  function ScoreTable(t: Tally, rows: seq<Row>, kind: SessionKind, holder: Option<string>, keying: Keying): (r: (Tally, bool))
    requires Valid(t)
    ensures Valid(r.0)
    ensures r.1 <==> AllScored(kind, rows)
    decreases |rows|
  {
    if rows == [] then (t, true)
    else if !Scores(kind, rows[0]) then (t, false)
    else
      var pts := RowPoints(kind, rows[0], holder);
      var next := if pts > 0 then Add(t, KeyOf(keying, rows[0]), NameOf(keying, rows[0]), pts) else t;
      assert AllScored(kind, rows) <==> AllScored(kind, rows[1..]) by {
        assert forall i :: 1 <= i < |rows| ==> rows[i] == rows[1..][i - 1];
      }
      ScoreTable(next, rows[1..], kind, holder, keying)
  }

  /** The sprint half of an eligible round: a missing table or a failed
      load logs "Sprint-n"; so does a table whose scoring raises. */
  function SprintStep(t: Tally, log: seq<NoData>, rd: Round, keying: Keying): (r: (Tally, seq<NoData>))
    requires Valid(t)
    ensures Valid(r.0)
  {
    match rd.sprint
    case Rows(rows) =>
      var (next, completed) := ScoreTable(t, rows, Sprint, None, keying);
      (next, if completed then log else log + [SprintMissing(rd.number)])
    case _ => (t, log + [SprintMissing(rd.number)])
  }

  /** One line of the schedule. Rounds of another format are skipped. A
      race that fails to load, or whose scoring raises, logs "Race-n" and
      ends the round, so its sprint is not looked at; a race without a
      table logs "Race-n" and the sprint is still scored. */
  function StepRound(t: Tally, log: seq<NoData>, rd: Round, keying: Keying): (r: (Tally, seq<NoData>))
    requires Valid(t)
    ensures Valid(r.0)
  {
    if !Eligible(rd.format) then (t, log)
    else
      match rd.race
      case Failed => (t, log + [RaceMissing(rd.number)])
      case NoTable => SprintStep(t, log + [RaceMissing(rd.number)], rd, keying)
      case Rows(rows) =>
        var (next, completed) := ScoreTable(t, rows, Race, FastestLapHolder(rows), keying);
        if completed then SprintStep(next, log, rd, keying)
        else (next, log + [RaceMissing(rd.number)])
  }

  /** The totals and the log after the whole schedule, in schedule order. */
  function Run(rounds: seq<Round>, keying: Keying): (r: (Tally, seq<NoData>))
    ensures Valid(r.0)
    decreases |rounds|
  {
    if rounds == [] then (Empty, [])
    else
      var (t, log) := Run(rounds[..|rounds| - 1], keying);
      StepRound(t, log, rounds[|rounds| - 1], keying)
  }

  // ---------------------------------------------------------------------
  // Reference definitions: what each entrant gets, without dictionaries.

  /** Points a table gives to entrant k: the sum over the rows scored
      before any unconvertible position, keyed k. */
  function TablePoints(rows: seq<Row>, kind: SessionKind, holder: Option<string>, keying: Keying, k: string): nat
    decreases |rows|
  {
    if rows == [] || !Scores(kind, rows[0]) then 0
    else
      (if KeyOf(keying, rows[0]) == k then RowPoints(kind, rows[0], holder) else 0)
      + TablePoints(rows[1..], kind, holder, keying, k)
  }

  /** The name on the last row of a table that scored for entrant k. */
  function TableLastName(rows: seq<Row>, kind: SessionKind, holder: Option<string>, keying: Keying, k: string): Option<string>
    decreases |rows|
  {
    if rows == [] || !Scores(kind, rows[0]) then None
    else
      var rest := TableLastName(rows[1..], kind, holder, keying, k);
      if rest.Some? then rest
      else if KeyOf(keying, rows[0]) == k && RowPoints(kind, rows[0], holder) > 0 then Some(NameOf(keying, rows[0]))
      else None
  }

  /** Points a table hands out in all, to whoever. */
  function TableAwarded(rows: seq<Row>, kind: SessionKind, holder: Option<string>): nat
    decreases |rows|
  {
    if rows == [] || !Scores(kind, rows[0]) then 0
    else RowPoints(kind, rows[0], holder) + TableAwarded(rows[1..], kind, holder)
  }

  /** A later name overrides an earlier one. */
  function Later(earlier: Option<string>, later: Option<string>): Option<string>
  {
    if later.Some? then later else earlier
  }

  /** The session yields no usable table: it failed to load, had no table,
      or raised while being scored. */
  predicate Missing(f: Fetch, kind: SessionKind)
  {
    !(f.Rows? && AllScored(kind, f.rows))
  }

  /** The handler goes on to the sprint after this race outcome. */
  predicate ReachesSprint(race: Fetch)
  {
    race.NoTable? || (race.Rows? && AllScored(Race, race.rows))
  }

  function FetchPoints(f: Fetch, kind: SessionKind, keying: Keying, k: string): nat
  {
    if f.Rows? then TablePoints(f.rows, kind, HolderFor(kind, f.rows), keying, k) else 0
  }

  function FetchLastName(f: Fetch, kind: SessionKind, keying: Keying, k: string): Option<string>
  {
    if f.Rows? then TableLastName(f.rows, kind, HolderFor(kind, f.rows), keying, k) else None
  }

  function FetchAwarded(f: Fetch, kind: SessionKind): nat
  {
    if f.Rows? then TableAwarded(f.rows, kind, HolderFor(kind, f.rows)) else 0
  }

  function RoundPoints(rd: Round, keying: Keying, k: string): nat
  {
    if !Eligible(rd.format) then 0
    else FetchPoints(rd.race, Race, keying, k)
         + (if ReachesSprint(rd.race) then FetchPoints(rd.sprint, Sprint, keying, k) else 0)
  }

  function RoundLastName(rd: Round, keying: Keying, k: string): Option<string>
  {
    if !Eligible(rd.format) then None
    else if ReachesSprint(rd.race) then Later(FetchLastName(rd.race, Race, keying, k), FetchLastName(rd.sprint, Sprint, keying, k))
    else FetchLastName(rd.race, Race, keying, k)
  }

  function RoundAwarded(rd: Round): nat
  {
    if !Eligible(rd.format) then 0
    else FetchAwarded(rd.race, Race) + (if ReachesSprint(rd.race) then FetchAwarded(rd.sprint, Sprint) else 0)
  }

  /** The labels one round contributes: "Race-n" when the race yields no
      usable table, then "Sprint-n" when the sprint is reached and yields
      none. */
  function RoundLog(rd: Round): seq<NoData>
  {
    if !Eligible(rd.format) then []
    else
      (if Missing(rd.race, Race) then [RaceMissing(rd.number)] else [])
      + (if ReachesSprint(rd.race) && Missing(rd.sprint, Sprint) then [SprintMissing(rd.number)] else [])
  }

  /** Entrant k's season total: the sum of its per-round contributions. */
  function SeasonPoints(rounds: seq<Round>, keying: Keying, k: string): nat
    decreases |rounds|
  {
    if rounds == [] then 0
    else SeasonPoints(rounds[..|rounds| - 1], keying, k) + RoundPoints(rounds[|rounds| - 1], keying, k)
  }

  /** The name on the last row, over the season, that scored for k. */
  function SeasonLastName(rounds: seq<Round>, keying: Keying, k: string): Option<string>
    decreases |rounds|
  {
    if rounds == [] then None
    else Later(SeasonLastName(rounds[..|rounds| - 1], keying, k), RoundLastName(rounds[|rounds| - 1], keying, k))
  }

  /** All points handed out over the season. */
  function SeasonAwarded(rounds: seq<Round>): nat
    decreases |rounds|
  {
    if rounds == [] then 0
    else SeasonAwarded(rounds[..|rounds| - 1]) + RoundAwarded(rounds[|rounds| - 1])
  }

  /** The no-data labels of the season, round after round. */
  function SeasonLog(rounds: seq<Round>): seq<NoData>
    decreases |rounds|
  {
    if rounds == [] then []
    else SeasonLog(rounds[..|rounds| - 1]) + RoundLog(rounds[|rounds| - 1])
  }

  // ---------------------------------------------------------------------
  // The dictionaries agree with the reference definitions.

  lemma {:induction false} ScoreTablePoints(t: Tally, rows: seq<Row>, kind: SessionKind, holder: Option<string>, keying: Keying, k: string)
    requires Valid(t)
    ensures PointsOf(ScoreTable(t, rows, kind, holder, keying).0, k) == PointsOf(t, k) + TablePoints(rows, kind, holder, keying, k)
    decreases |rows|
  {
    if rows != [] && Scores(kind, rows[0]) {
      var pts := RowPoints(kind, rows[0], holder);
      var next := if pts > 0 then Add(t, KeyOf(keying, rows[0]), NameOf(keying, rows[0]), pts) else t;
      ScoreTablePoints(next, rows[1..], kind, holder, keying, k);
    }
  }

  lemma {:induction false} ScoreTableNames(t: Tally, rows: seq<Row>, kind: SessionKind, holder: Option<string>, keying: Keying, k: string)
    requires Valid(t)
    ensures NameFor(ScoreTable(t, rows, kind, holder, keying).0, k) == Later(NameFor(t, k), TableLastName(rows, kind, holder, keying, k))
    decreases |rows|
  {
    if rows != [] && Scores(kind, rows[0]) {
      var pts := RowPoints(kind, rows[0], holder);
      var next := if pts > 0 then Add(t, KeyOf(keying, rows[0]), NameOf(keying, rows[0]), pts) else t;
      assert ScoreTable(t, rows, kind, holder, keying) == ScoreTable(next, rows[1..], kind, holder, keying);
      ScoreTableNames(next, rows[1..], kind, holder, keying, k);
      var rest := TableLastName(rows[1..], kind, holder, keying, k);
      assert NameFor(next, k) == if pts > 0 && KeyOf(keying, rows[0]) == k then Some(NameOf(keying, rows[0])) else NameFor(t, k);
      if rest.None? {
        assert TableLastName(rows, kind, holder, keying, k) == if pts > 0 && KeyOf(keying, rows[0]) == k then Some(NameOf(keying, rows[0])) else None;
      }
    }
  }

  lemma {:induction false} ScoreTableTotal(t: Tally, rows: seq<Row>, kind: SessionKind, holder: Option<string>, keying: Keying)
    requires Valid(t)
    ensures Total(ScoreTable(t, rows, kind, holder, keying).0) == Total(t) + TableAwarded(rows, kind, holder)
    decreases |rows|
  {
    if rows != [] && Scores(kind, rows[0]) {
      var pts := RowPoints(kind, rows[0], holder);
      var next := if pts > 0 then Add(t, KeyOf(keying, rows[0]), NameOf(keying, rows[0]), pts) else t;
      if pts > 0 {
        AddTotal(t, KeyOf(keying, rows[0]), NameOf(keying, rows[0]), pts);
      }
      ScoreTableTotal(next, rows[1..], kind, holder, keying);
    }
  }

  /** Scoring a fetched session, in the terms of the reference definitions. */
  lemma ScoreFetchMatches(t: Tally, f: Fetch, kind: SessionKind, keying: Keying)
    requires Valid(t) && f.Rows?
    ensures forall k :: PointsOf(ScoreTable(t, f.rows, kind, HolderFor(kind, f.rows), keying).0, k) == PointsOf(t, k) + FetchPoints(f, kind, keying, k)
    ensures forall k :: NameFor(ScoreTable(t, f.rows, kind, HolderFor(kind, f.rows), keying).0, k) == Later(NameFor(t, k), FetchLastName(f, kind, keying, k))
    ensures Total(ScoreTable(t, f.rows, kind, HolderFor(kind, f.rows), keying).0) == Total(t) + FetchAwarded(f, kind)
  {
    forall k ensures PointsOf(ScoreTable(t, f.rows, kind, HolderFor(kind, f.rows), keying).0, k) == PointsOf(t, k) + FetchPoints(f, kind, keying, k) {
      ScoreTablePoints(t, f.rows, kind, HolderFor(kind, f.rows), keying, k);
    }
    forall k ensures NameFor(ScoreTable(t, f.rows, kind, HolderFor(kind, f.rows), keying).0, k) == Later(NameFor(t, k), FetchLastName(f, kind, keying, k)) {
      ScoreTableNames(t, f.rows, kind, HolderFor(kind, f.rows), keying, k);
    }
    ScoreTableTotal(t, f.rows, kind, HolderFor(kind, f.rows), keying);
  }

  lemma SprintStepMatches(t: Tally, log: seq<NoData>, rd: Round, keying: Keying)
    requires Valid(t)
    ensures SprintStep(t, log, rd, keying).1 == log + (if Missing(rd.sprint, Sprint) then [SprintMissing(rd.number)] else [])
    ensures forall k :: PointsOf(SprintStep(t, log, rd, keying).0, k) == PointsOf(t, k) + FetchPoints(rd.sprint, Sprint, keying, k)
    ensures forall k :: NameFor(SprintStep(t, log, rd, keying).0, k) == Later(NameFor(t, k), FetchLastName(rd.sprint, Sprint, keying, k))
    ensures Total(SprintStep(t, log, rd, keying).0) == Total(t) + FetchAwarded(rd.sprint, Sprint)
  {
    if rd.sprint.Rows? {
      ScoreFetchMatches(t, rd.sprint, Sprint, keying);
      if !Missing(rd.sprint, Sprint) {
        assert log + [] == log;
      }
    }
  }

  lemma NoRaceTableMatches(t: Tally, log: seq<NoData>, rd: Round, keying: Keying)
    requires Valid(t)
    requires Eligible(rd.format) && rd.race.NoTable?
    ensures StepRound(t, log, rd, keying).1 == log + RoundLog(rd)
    ensures forall k :: PointsOf(StepRound(t, log, rd, keying).0, k) == PointsOf(t, k) + RoundPoints(rd, keying, k)
    ensures forall k :: NameFor(StepRound(t, log, rd, keying).0, k) == Later(NameFor(t, k), RoundLastName(rd, keying, k))
    ensures Total(StepRound(t, log, rd, keying).0) == Total(t) + RoundAwarded(rd)
  {
    SprintStepMatches(t, log + [RaceMissing(rd.number)], rd, keying);
    assert RoundLog(rd) == [RaceMissing(rd.number)] + (if Missing(rd.sprint, Sprint) then [SprintMissing(rd.number)] else []);
  }

  lemma RaceRowsMatches(t: Tally, log: seq<NoData>, rd: Round, keying: Keying)
    requires Valid(t)
    requires Eligible(rd.format) && rd.race.Rows?
    ensures StepRound(t, log, rd, keying).1 == log + RoundLog(rd)
    ensures forall k :: PointsOf(StepRound(t, log, rd, keying).0, k) == PointsOf(t, k) + RoundPoints(rd, keying, k)
    ensures forall k :: NameFor(StepRound(t, log, rd, keying).0, k) == Later(NameFor(t, k), RoundLastName(rd, keying, k))
    ensures Total(StepRound(t, log, rd, keying).0) == Total(t) + RoundAwarded(rd)
  {
    var rows := rd.race.rows;
    ScoreFetchMatches(t, rd.race, Race, keying);
    var next := ScoreTable(t, rows, Race, FastestLapHolder(rows), keying).0;
    if AllScored(Race, rows) {
      SprintStepMatches(next, log, rd, keying);
      assert RoundLog(rd) == [] + (if Missing(rd.sprint, Sprint) then [SprintMissing(rd.number)] else []);
    } else {
      assert RoundLog(rd) == [RaceMissing(rd.number)] + [];
    }
  }

  lemma StepRoundMatches(t: Tally, log: seq<NoData>, rd: Round, keying: Keying)
    requires Valid(t)
    ensures StepRound(t, log, rd, keying).1 == log + RoundLog(rd)
    ensures forall k :: PointsOf(StepRound(t, log, rd, keying).0, k) == PointsOf(t, k) + RoundPoints(rd, keying, k)
    ensures forall k :: NameFor(StepRound(t, log, rd, keying).0, k) == Later(NameFor(t, k), RoundLastName(rd, keying, k))
    ensures Total(StepRound(t, log, rd, keying).0) == Total(t) + RoundAwarded(rd)
  {
    if !Eligible(rd.format) {
      assert log + [] == log;
    } else {
      match rd.race
      case Failed =>
        assert RoundLog(rd) == [RaceMissing(rd.number)] + [];
      case NoTable =>
        NoRaceTableMatches(t, log, rd, keying);
      case Rows(rows) =>
        RaceRowsMatches(t, log, rd, keying);
    }
  }

  /** The totals, names and log the handler accumulates are the reference
      ones: each entrant's total is the sum of its per-session contributions,
      its name is that of its last scoring row, and the log lists the
      sessions without usable data in schedule order. */
  lemma {:induction false} RunMatchesReference(rounds: seq<Round>, keying: Keying)
    ensures Run(rounds, keying).1 == SeasonLog(rounds)
    ensures forall k :: PointsOf(Run(rounds, keying).0, k) == SeasonPoints(rounds, keying, k)
    ensures forall k :: NameFor(Run(rounds, keying).0, k) == SeasonLastName(rounds, keying, k)
    ensures Total(Run(rounds, keying).0) == SeasonAwarded(rounds)
    decreases |rounds|
  {
    if rounds != [] {
      var prefix := rounds[..|rounds| - 1];
      RunMatchesReference(prefix, keying);
      var (t, log) := Run(prefix, keying);
      StepRoundMatches(t, log, rounds[|rounds| - 1], keying);
    }
  }

  // ---------------------------------------------------------------------
  // The order in which entrants first scored.

  /** The keys of a table's scoring rows, in table order, up to the first
      row that raises. */
  function TableScorers(rows: seq<Row>, kind: SessionKind, holder: Option<string>, keying: Keying): seq<string>
    decreases |rows|
  {
    if rows == [] || !Scores(kind, rows[0]) then []
    else
      (if RowPoints(kind, rows[0], holder) > 0 then [KeyOf(keying, rows[0])] else [])
      + TableScorers(rows[1..], kind, holder, keying)
  }

  function FetchScorers(f: Fetch, kind: SessionKind, keying: Keying): seq<string>
  {
    if f.Rows? then TableScorers(f.rows, kind, HolderFor(kind, f.rows), keying) else []
  }

  /** The keys scoring in one round: the race's, then the sprint's when the
      sprint is reached. */
  function RoundScorers(rd: Round, keying: Keying): seq<string>
  {
    if !Eligible(rd.format) then []
    else FetchScorers(rd.race, Race, keying)
         + (if ReachesSprint(rd.race) then FetchScorers(rd.sprint, Sprint, keying) else [])
  }

  /** Every scoring row's key over the season, in the order the rows are
      scored. */
  function SeasonScorers(rounds: seq<Round>, keying: Keying): seq<string>
    decreases |rounds|
  {
    if rounds == [] then []
    else SeasonScorers(rounds[..|rounds| - 1], keying) + RoundScorers(rounds[|rounds| - 1], keying)
  }

  /** Entrant a scored, over the season, before entrant b first did. */
  predicate ScoredFirst(scorers: seq<string>, a: string, b: string)
  {
    forall p :: 0 <= p < |scorers| && scorers[p] == b ==> a in scorers[..p]
  }

  lemma {:induction false} ScoreTableOrder(t: Tally, rows: seq<Row>, kind: SessionKind, holder: Option<string>, keying: Keying)
    requires Valid(t)
    ensures ScoreTable(t, rows, kind, holder, keying).0.order == Extend(t.order, TableScorers(rows, kind, holder, keying))
    decreases |rows|
  {
    if rows != [] && Scores(kind, rows[0]) {
      var pts := RowPoints(kind, rows[0], holder);
      var key := KeyOf(keying, rows[0]);
      var next := if pts > 0 then Add(t, key, NameOf(keying, rows[0]), pts) else t;
      ScoreTableOrder(next, rows[1..], kind, holder, keying);
      var rest := TableScorers(rows[1..], kind, holder, keying);
      if pts > 0 {
        AddOrder(t, key, NameOf(keying, rows[0]), pts);
        ExtendAppend(t.order, [key], rest);
      } else {
        assert [] + rest == rest;
      }
    }
  }

  lemma SprintStepOrder(t: Tally, log: seq<NoData>, rd: Round, keying: Keying)
    requires Valid(t)
    ensures SprintStep(t, log, rd, keying).0.order == Extend(t.order, FetchScorers(rd.sprint, Sprint, keying))
  {
    if rd.sprint.Rows? {
      ScoreTableOrder(t, rd.sprint.rows, Sprint, None, keying);
    }
  }

  lemma NoRaceTableOrder(t: Tally, log: seq<NoData>, rd: Round, keying: Keying)
    requires Valid(t) && Eligible(rd.format) && rd.race.NoTable?
    ensures StepRound(t, log, rd, keying).0.order == Extend(t.order, RoundScorers(rd, keying))
  {
    var x := FetchScorers(rd.sprint, Sprint, keying);
    assert ReachesSprint(rd.race);
    assert FetchScorers(rd.race, Race, keying) == [];
    assert RoundScorers(rd, keying) == x by {
      assert [] + x == x;
    }
    assert StepRound(t, log, rd, keying) == SprintStep(t, log + [RaceMissing(rd.number)], rd, keying);
    SprintStepOrder(t, log + [RaceMissing(rd.number)], rd, keying);
  }

  lemma RaceRowsOrder(t: Tally, log: seq<NoData>, rd: Round, keying: Keying)
    requires Valid(t) && Eligible(rd.format) && rd.race.Rows?
    ensures StepRound(t, log, rd, keying).0.order == Extend(t.order, RoundScorers(rd, keying))
  {
    var rows := rd.race.rows;
    var h := FastestLapHolder(rows);
    var a := FetchScorers(rd.race, Race, keying);
    assert a == TableScorers(rows, Race, h, keying);
    var (next, completed) := ScoreTable(t, rows, Race, h, keying);
    ScoreTableOrder(t, rows, Race, h, keying);
    if completed {
      var b := FetchScorers(rd.sprint, Sprint, keying);
      assert ReachesSprint(rd.race);
      assert RoundScorers(rd, keying) == a + b;
      assert StepRound(t, log, rd, keying) == SprintStep(next, log, rd, keying);
      SprintStepOrder(next, log, rd, keying);
      ExtendAppend(t.order, a, b);
    } else {
      assert !ReachesSprint(rd.race);
      assert RoundScorers(rd, keying) == a by {
        assert a + [] == a;
      }
      assert StepRound(t, log, rd, keying).0 == next;
    }
  }

  lemma StepRoundOrder(t: Tally, log: seq<NoData>, rd: Round, keying: Keying)
    requires Valid(t)
    ensures StepRound(t, log, rd, keying).0.order == Extend(t.order, RoundScorers(rd, keying))
  {
    if Eligible(rd.format) {
      match rd.race
      case Failed =>
        assert RoundScorers(rd, keying) == [] + [];
      case NoTable =>
        NoRaceTableOrder(t, log, rd, keying);
      case Rows(rows) =>
        RaceRowsOrder(t, log, rd, keying);
    }
  }

  /** The dictionaries list their keys in the order the entrants first
      scored over the season. */
  lemma {:induction false} RunOrder(rounds: seq<Round>, keying: Keying)
    ensures Run(rounds, keying).0.order == FirstOccurrences(SeasonScorers(rounds, keying))
    decreases |rounds|
  {
    if rounds != [] {
      var prefix := rounds[..|rounds| - 1];
      RunOrder(prefix, keying);
      var (t, log) := Run(prefix, keying);
      StepRoundOrder(t, log, rounds[|rounds| - 1], keying);
      ExtendAppend([], SeasonScorers(prefix, keying), RoundScorers(rounds[|rounds| - 1], keying));
    }
  }

  /** Of two keys in the dictionaries' order, the earlier one scored before
      the later one first did. */
  lemma RunOrderIsFirstScoring(rounds: seq<Round>, keying: Keying)
    ensures forall i, j :: 0 <= i < j < |Run(rounds, keying).0.order| ==>
              ScoredFirst(SeasonScorers(rounds, keying), Run(rounds, keying).0.order[i], Run(rounds, keying).0.order[j])
  {
    RunOrder(rounds, keying);
  }

  // ---------------------------------------------------------------------
  // What the season computation promises.

  lemma {:induction false} SeasonPointsAppend(a: seq<Round>, b: seq<Round>, keying: Keying, k: string)
    ensures SeasonPoints(a + b, keying, k) == SeasonPoints(a, keying, k) + SeasonPoints(b, keying, k)
    decreases |b|
  {
    if b == [] {
      assert a + b == a;
    } else {
      assert (a + b)[..|a + b| - 1] == a + b[..|b| - 1];
      assert (a + b)[|a + b| - 1] == b[|b| - 1];
      SeasonPointsAppend(a, b[..|b| - 1], keying, k);
    }
  }

  lemma {:induction false} SeasonLogAppend(a: seq<Round>, b: seq<Round>)
    ensures SeasonLog(a + b) == SeasonLog(a) + SeasonLog(b)
    decreases |b|
  {
    if b == [] {
      assert a + b == a;
    } else {
      assert (a + b)[..|a + b| - 1] == a + b[..|b| - 1];
      assert (a + b)[|a + b| - 1] == b[|b| - 1];
      SeasonLogAppend(a, b[..|b| - 1]);
    }
  }

  /** Later rounds never take points away: every total reached after a
      prefix of the schedule is still there, at least as large, at the end,
      and the log only grows at its end. */
  lemma AccumulatedNeverRemoved(a: seq<Round>, b: seq<Round>, keying: Keying)
    ensures forall k :: PointsOf(Run(a, keying).0, k) <= PointsOf(Run(a + b, keying).0, k)
    ensures forall k :: k in Run(a, keying).0.points ==> k in Run(a + b, keying).0.points
    ensures Run(a, keying).1 <= Run(a + b, keying).1
  {
    RunMatchesReference(a, keying);
    RunMatchesReference(a + b, keying);
    forall k ensures PointsOf(Run(a, keying).0, k) <= PointsOf(Run(a + b, keying).0, k) {
      SeasonPointsAppend(a, b, keying, k);
    }
    forall k | k in Run(a, keying).0.points ensures k in Run(a + b, keying).0.points {
      assert PointsOf(Run(a, keying).0, k) > 0;
      assert PointsOf(Run(a + b, keying).0, k) > 0;
    }
    SeasonLogAppend(a, b);
  }

  /** The rounds of the schedule whose format takes part in the standings. */
  function EligibleRounds(rounds: seq<Round>): (r: seq<Round>)
    ensures forall i :: 0 <= i < |r| ==> Eligible(r[i].format)
    ensures forall x :: x in r <==> x in rounds && Eligible(x.format)
    decreases |rounds|
  {
    if rounds == [] then []
    else
      var prefix := EligibleRounds(rounds[..|rounds| - 1]);
      var last := rounds[|rounds| - 1];
      if Eligible(last.format) then prefix + [last] else prefix
  }

  /** Filtering keeps schedule order: the eligible rounds of two stretches
      of the schedule are those of the first followed by those of the second. */
  lemma {:induction false} EligibleRoundsAppend(a: seq<Round>, b: seq<Round>)
    ensures EligibleRounds(a + b) == EligibleRounds(a) + EligibleRounds(b)
    decreases |b|
  {
    if b == [] {
      assert a + b == a;
    } else {
      assert (a + b)[..|a + b| - 1] == a + b[..|b| - 1];
      assert (a + b)[|a + b| - 1] == b[|b| - 1];
      EligibleRoundsAppend(a, b[..|b| - 1]);
    }
  }

  /** Rounds of any other format change neither the totals nor the log:
      the season gives exactly what its eligible rounds alone give. */
  lemma {:induction false} IneligibleRoundsIgnored(rounds: seq<Round>, keying: Keying)
    ensures Run(EligibleRounds(rounds), keying) == Run(rounds, keying)
    decreases |rounds|
  {
    if rounds != [] {
      var prefix := rounds[..|rounds| - 1];
      var last := rounds[|rounds| - 1];
      IneligibleRoundsIgnored(prefix, keying);
      var e := EligibleRounds(prefix);
      if Eligible(last.format) {
        assert (e + [last])[..|e + [last]| - 1] == e;
      }
    }
  }

  /** A season without an eligible round yields no totals and no labels. */
  lemma {:induction false} NoEligibleRoundsNoStandings(rounds: seq<Round>, keying: Keying)
    requires forall i :: 0 <= i < |rounds| ==> !Eligible(rounds[i].format)
    ensures Run(rounds, keying) == (Empty, [])
    decreases |rounds|
  {
    if rounds != [] {
      NoEligibleRoundsNoStandings(rounds[..|rounds| - 1], keying);
    }
  }

  /** A race that fails to load, or whose scoring raises part-way, logs
      exactly "Race-n" and ends the round: the points of the rows scored
      before the failure stay, and the sprint, whatever it holds, is not
      looked at. */
  lemma FailedRaceSkipsSprint(rounds: seq<Round>, rd: Round, other: Fetch, keying: Keying)
    requires Eligible(rd.format)
    requires rd.race.Failed? || (rd.race.Rows? && !AllScored(Race, rd.race.rows))
    ensures Run(rounds + [rd], keying).1 == Run(rounds, keying).1 + [RaceMissing(rd.number)]
    ensures forall k :: PointsOf(Run(rounds + [rd], keying).0, k) == PointsOf(Run(rounds, keying).0, k) + FetchPoints(rd.race, Race, keying, k)
    ensures Run(rounds + [rd], keying) == Run(rounds + [rd.(sprint := other)], keying)
  {
    var rd' := rd.(sprint := other);
    assert (rounds + [rd])[..|rounds|] == rounds;
    assert (rounds + [rd'])[..|rounds|] == rounds;
    var (t, log) := Run(rounds, keying);
    StepRoundMatches(t, log, rd, keying);
  }

  /** A race without a result table logs "Race-n" and the sprint is still
      scored: the round adds exactly the sprint's points, and "Sprint-n"
      follows when the sprint yields no usable table either. */
  lemma MissingRaceTableScoresSprint(rounds: seq<Round>, rd: Round, keying: Keying)
    requires Eligible(rd.format) && rd.race.NoTable?
    ensures Run(rounds + [rd], keying).1 ==
              Run(rounds, keying).1 + [RaceMissing(rd.number)] + (if Missing(rd.sprint, Sprint) then [SprintMissing(rd.number)] else [])
    ensures forall k :: PointsOf(Run(rounds + [rd], keying).0, k) == PointsOf(Run(rounds, keying).0, k) + FetchPoints(rd.sprint, Sprint, keying, k)
  {
    assert (rounds + [rd])[..|rounds|] == rounds;
    var (t, log) := Run(rounds, keying);
    StepRoundMatches(t, log, rd, keying);
  }

  /** Driver and constructor standings share out the same points: the sum
      of all driver totals equals the sum of all team totals, and both are
      every point the season's scored rows award. */
  lemma DriverAndTeamTotalsAgree(rounds: seq<Round>)
    ensures Total(Run(rounds, ByDriver).0) == SeasonAwarded(rounds)
    ensures Total(Run(rounds, ByTeam).0) == SeasonAwarded(rounds)
  {
    RunMatchesReference(rounds, ByDriver);
    RunMatchesReference(rounds, ByTeam);
  }

  /** Constructor standings store the team name as its own label. */
  lemma {:induction false} TableTeamName(rows: seq<Row>, kind: SessionKind, holder: Option<string>, k: string)
    ensures TableLastName(rows, kind, holder, ByTeam, k) in {None, Some(k)}
    decreases |rows|
  {
    if rows != [] && Scores(kind, rows[0]) {
      TableTeamName(rows[1..], kind, holder, k);
    }
  }

  lemma {:induction false} TeamNamesAreKeys(rounds: seq<Round>, k: string)
    ensures SeasonLastName(rounds, ByTeam, k) in {None, Some(k)}
    decreases |rounds|
  {
    if rounds != [] {
      var rd := rounds[|rounds| - 1];
      TeamNamesAreKeys(rounds[..|rounds| - 1], k);
      if rd.race.Rows? {
        TableTeamName(rd.race.rows, Race, FastestLapHolder(rd.race.rows), k);
      }
      if rd.sprint.Rows? {
        TableTeamName(rd.sprint.rows, Sprint, None, k);
      }
    }
  }
}
