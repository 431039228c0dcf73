/** The standings handlers as the loops they are: a loop over the
    schedule, a loop over each result table updating the points and names
    dictionaries in place, then the list of entries sorted by points. */
module Standings {
  import opened Wrappers
  import opened Results
  import opened Scoring
  import opened Ranking
  import opened Tallies
  import opened Season

  /** The loop over one result table. Each row's points come from the
      session's table, plus the fastest-lap bonus in a race; a positive
      amount is added under the row's key and the row's name is stored.
      A position that does not convert, or a table index below the
      table's negative range, raises: the loop stops there with
      `completed` false and what it added so far stays. */
  method ScoreRows(order: seq<string>, points: map<string, nat>, names: map<string, string>,
                   rows: seq<Row>, kind: SessionKind, holder: Option<string>, keying: Keying)
    returns (order': seq<string>, points': map<string, nat>, names': map<string, string>, completed: bool)
    requires Valid(Tally(order, points, names))
    ensures (Tally(order', points', names'), completed) == ScoreTable(Tally(order, points, names), rows, kind, holder, keying)
  {
    ghost var goal := ScoreTable(Tally(order, points, names), rows, kind, holder, keying);
    order', points', names' := order, points, names;
    var i := 0;
    assert rows[i..] == rows;
    while i < |rows|
      invariant 0 <= i <= |rows|
      invariant Valid(Tally(order', points', names'))
      invariant ScoreTable(Tally(order', points', names'), rows[i..], kind, holder, keying) == goal
    {
      var row := rows[i];
      ghost var before := Tally(order', points', names');
      assert rows[i..][1..] == rows[i + 1..];
      var pts, raised := ScoreOneRow(row, kind, holder);
      if raised {
        return order', points', names', false;
      }
      var key := KeyOf(keying, row);
      if pts > 0 {
        order', points', names' := Credit(order', points', names', key, NameOf(keying, row), pts);
      }
      ScoreTableStep(before, rows[i..], kind, holder, keying);
      i := i + 1;
    }
    completed := true;
  }

  /** The body of the row loop before the dictionary update: the row's
      points, or `raised` when `int(r["Position"])` fails or the table
      index falls below the table's negative range. */
  method ScoreOneRow(row: Row, kind: SessionKind, holder: Option<string>) returns (pts: nat, raised: bool)
    ensures raised <==> !Scores(kind, row)
    ensures !raised ==> pts == RowPoints(kind, row, holder)
  {
    pts := 0;
    if row.position.None? {
      return 0, true;
    }
    var pos := row.position.value;
    if kind == Race {
      if pos <= 10 {
        if pos - 1 < -|RaceTable| {
          return 0, true;
        }
        pts := if pos - 1 < 0 then RaceTable[|RaceTable| + pos - 1] else RaceTable[pos - 1];
      }
      if holder == Some(row.driverNumber) && pos <= 10 {
        pts := pts + 1;
      }
    } else {
      if pos <= 8 {
        if pos - 1 < -|SprintTable| {
          return 0, true;
        }
        pts := if pos - 1 < 0 then SprintTable[|SprintTable| + pos - 1] else SprintTable[pos - 1];
      }
    }
    raised := false;
  }

  lemma ScoreTableStep(t: Tally, rows: seq<Row>, kind: SessionKind, holder: Option<string>, keying: Keying)
    requires Valid(t) && rows != [] && Scores(kind, rows[0])
    ensures var pts := RowPoints(kind, rows[0], holder);
            var next := if pts > 0 then Add(t, KeyOf(keying, rows[0]), NameOf(keying, rows[0]), pts) else t;
            ScoreTable(t, rows, kind, holder, keying) == ScoreTable(next, rows[1..], kind, holder, keying)
  {
  }

  /** `points[key] = points.get(key, 0) + pts` and `names[key] = name`:
      a key seen for the first time joins the end of the key order. */
  method Credit(order: seq<string>, points: map<string, nat>, names: map<string, string>,
                key: string, name: string, pts: nat)
    returns (order': seq<string>, points': map<string, nat>, names': map<string, string>)
    requires Valid(Tally(order, points, names)) && pts > 0
    ensures Tally(order', points', names') == Add(Tally(order, points, names), key, name, pts)
  {
    order', points', names' := order, points, names;
    if key !in points' {
      order' := order' + [key];
    }
    points' := points'[key := (if key in points' then points'[key] else 0) + pts];
    names' := names'[key := name];
  }

  /** The loop over the schedule shared by both handlers: rounds of
      another format are skipped; a race that fails to load, or whose
      scoring raises, logs "Race-n" and ends the round; a race without a
      table logs "Race-n" and the sprint is still scored; a sprint that
      fails, has no table or raises logs "Sprint-n". */
  method Accumulate(rounds: seq<Round>, keying: Keying)
    returns (order: seq<string>, points: map<string, nat>, names: map<string, string>, noData: seq<NoData>)
    ensures (Tally(order, points, names), noData) == Run(rounds, keying)
  {
    order, points, names := [], map[], map[];
    noData := [];
    var n := 0;
    while n < |rounds|
      invariant 0 <= n <= |rounds|
      invariant (Tally(order, points, names), noData) == Run(rounds[..n], keying)
    {
      var rd := rounds[n];
      ghost var before := Tally(order, points, names);
      ghost var logBefore := noData;
      assert rounds[..n + 1][..n] == rounds[..n];
      assert Run(rounds[..n + 1], keying) == StepRound(before, logBefore, rd, keying);
      if !Eligible(rd.format) {
        n := n + 1;
        continue;
      }
      // The race.
      match rd.race {
        case Failed =>
          noData := noData + [RaceMissing(rd.number)];
          n := n + 1;
          continue;
        case NoTable =>
          noData := noData + [RaceMissing(rd.number)];
        case Rows(rows) =>
          var holder := FastestLapHolder(rows);
          var completed;
          order, points, names, completed := ScoreRows(order, points, names, rows, Race, holder, keying);
          if !completed {
            noData := noData + [RaceMissing(rd.number)];
            n := n + 1;
            continue;
          }
      }
      // The sprint.
      match rd.sprint {
        case Rows(rows) =>
          var completed;
          order, points, names, completed := ScoreRows(order, points, names, rows, Sprint, None, keying);
          if !completed {
            noData := noData + [SprintMissing(rd.number)];
          }
        case _ =>
          noData := noData + [SprintMissing(rd.number)];
      }
      n := n + 1;
    }
    assert rounds[..n] == rounds;
  }

  /** The body shared by both handlers: the totals of the whole schedule,
      then one line per entrant in dictionary order, sorted by points with
      equal totals left in the order the entrants first scored. */
  method Tabulate(rounds: seq<Round>, keying: Keying) returns (standings: seq<Standing>, noData: seq<NoData>)
    ensures noData == SeasonLog(rounds)
    ensures StableDescOf(standings, Listing(Run(rounds, keying).0))
    ensures StandingsAgree(standings, rounds, keying)
    ensures forall i, j :: 0 <= i < j < |standings| && standings[i].points == standings[j].points ==>
              ScoredFirst(SeasonScorers(rounds, keying), standings[i].key, standings[j].key)
  {
    var order, points, names;
    order, points, names, noData := Accumulate(rounds, keying);
    standings := Listing(Tally(order, points, names));
    standings := SortByPointsDesc(standings);
    RunMatchesReference(rounds, keying);
    SortedListingAgrees(rounds, keying, standings);
    TiesInFirstScoringOrder(rounds, keying, standings);
  }

  /** What a standings list must say about the season: each line carries
      its entrant's season total, which is positive, and the name of the
      entrant's last scoring row; every entrant with a positive total has
      exactly one line. */
  ghost predicate StandingsAgree(standings: seq<Standing>, rounds: seq<Round>, keying: Keying)
  {
    && (forall i :: 0 <= i < |standings| ==>
          && standings[i].points == SeasonPoints(rounds, keying, standings[i].key)
          && standings[i].points > 0
          && SeasonLastName(rounds, keying, standings[i].key) == Some(standings[i].name))
    && (forall k :: SeasonPoints(rounds, keying, k) > 0 <==> exists i :: 0 <= i < |standings| && standings[i].key == k)
    && (forall i, j :: 0 <= i < j < |standings| ==> standings[i].key != standings[j].key)
  }

  lemma {:induction false} DistinctCountsOnce(s: seq<Standing>, x: Standing)
    requires forall i, j :: 0 <= i < j < |s| ==> s[i] != s[j]
    ensures multiset(s)[x] <= 1
    decreases |s|
  {
    if s != [] {
      assert s == [s[0]] + s[1..];
      DistinctCountsOnce(s[1..], x);
      assert s[0] !in s[1..];
    }
  }

  lemma RepeatCountsTwice(s: seq<Standing>, i: int, j: int)
    requires 0 <= i < j < |s| && s[i] == s[j]
    ensures multiset(s)[s[i]] >= 2
  {
    assert s == s[..j] + [s[j]] + s[j + 1..];
    assert s[..j][i] == s[i];
    assert s[i] in multiset(s[..j]);
  }

  lemma ListingLinesDistinct(t: Tally)
    requires Valid(t)
    ensures forall i, j :: 0 <= i < j < |Listing(t)| ==> Listing(t)[i] != Listing(t)[j]
  {
    var listing := Listing(t);
    forall i, j | 0 <= i < j < |listing| ensures listing[i] != listing[j] {
      assert listing[i].key == t.order[i] && listing[j].key == t.order[j];
    }
  }

  /** A permutation of a list with distinct keys has distinct keys. */
  lemma PermutedKeysDistinct(t: Tally, standings: seq<Standing>)
    requires Valid(t) && multiset(standings) == multiset(Listing(t))
    ensures forall i, j :: 0 <= i < j < |standings| ==> standings[i].key != standings[j].key
  {
    var listing := Listing(t);
    ListingLinesDistinct(t);
    forall i, j | 0 <= i < j < |standings| ensures standings[i].key != standings[j].key {
      assert standings[i] in multiset(listing);
      assert standings[j] in multiset(listing);
      var a :| 0 <= a < |listing| && listing[a] == standings[i];
      var b :| 0 <= b < |listing| && listing[b] == standings[j];
      DistinctCountsOnce(listing, standings[i]);
      if standings[i] == standings[j] {
        RepeatCountsTwice(standings, i, j);
        assert false;
      }
      assert a != b;
      assert t.order[a] != t.order[b];
    }
  }

  /** Each line of a permutation of the listing is a line of the listing. */
  lemma PermutedLinesFromTally(t: Tally, standings: seq<Standing>)
    requires Valid(t) && multiset(standings) == multiset(Listing(t))
    ensures forall i :: 0 <= i < |standings| ==>
              && standings[i].points == PointsOf(t, standings[i].key)
              && standings[i].points > 0
              && NameFor(t, standings[i].key) == Some(standings[i].name)
  {
    var listing := Listing(t);
    forall i | 0 <= i < |standings|
      ensures standings[i].points == PointsOf(t, standings[i].key)
      ensures standings[i].points > 0
      ensures NameFor(t, standings[i].key) == Some(standings[i].name)
    {
      assert standings[i] in multiset(listing);
      var j :| 0 <= j < |listing| && listing[j] == standings[i];
    }
  }

  /** Every key with a positive total has a line in a permutation of the listing. */
  lemma PermutedLinesCoverTally(t: Tally, standings: seq<Standing>)
    requires Valid(t) && multiset(standings) == multiset(Listing(t))
    ensures forall k :: PointsOf(t, k) > 0 ==> exists i :: 0 <= i < |standings| && standings[i].key == k
  {
    var listing := Listing(t);
    forall k | PointsOf(t, k) > 0
      ensures exists i :: 0 <= i < |standings| && standings[i].key == k
    {
      assert k in t.order;
      var j :| 0 <= j < |t.order| && t.order[j] == k;
      assert listing[j] in multiset(standings);
      var i :| 0 <= i < |standings| && standings[i] == listing[j];
    }
  }

  /** Sorting the listing of the season's totals keeps every line and adds
      none, so the sorted list agrees with the reference totals and names. */
  lemma SortedListingAgrees(rounds: seq<Round>, keying: Keying, standings: seq<Standing>)
    requires StableDescOf(standings, Listing(Run(rounds, keying).0))
    ensures StandingsAgree(standings, rounds, keying)
  {
    RunMatchesReference(rounds, keying);
    var t := Run(rounds, keying).0;
    PermutedLinesFromTally(t, standings);
    PermutedLinesCoverTally(t, standings);
    PermutedKeysDistinct(t, standings);
  }

  /** Entrants with equal totals are listed in the order in which they
      first scored over the season. */
  lemma TiesInFirstScoringOrder(rounds: seq<Round>, keying: Keying, standings: seq<Standing>)
    requires StableDescOf(standings, Listing(Run(rounds, keying).0))
    ensures forall i, j :: 0 <= i < j < |standings| && standings[i].points == standings[j].points ==>
              ScoredFirst(SeasonScorers(rounds, keying), standings[i].key, standings[j].key)
  {
    var t := Run(rounds, keying).0;
    var listing := Listing(t);
    RunOrderIsFirstScoring(rounds, keying);
    forall i, j | 0 <= i < j < |standings| && standings[i].points == standings[j].points
      ensures ScoredFirst(SeasonScorers(rounds, keying), standings[i].key, standings[j].key)
    {
      StableKeepsTies(standings, listing, i, j);
      var p, q :| 0 <= p < q < |listing| && listing[p] == standings[i] && listing[q] == standings[j];
      assert standings[i].key == t.order[p] && standings[j].key == t.order[q];
    }
  }

  /** `get_driver_standings_local`: totals keyed by driver number, shown
      with the full name of the driver's last scoring row. */
  method DriverStandings(rounds: seq<Round>) returns (standings: seq<Standing>, noData: seq<NoData>)
    ensures noData == SeasonLog(rounds)
    ensures SortedDesc(standings)
    ensures StandingsAgree(standings, rounds, ByDriver)
    ensures forall v :: WithPoints(standings, v) == WithPoints(Listing(Run(rounds, ByDriver).0), v)
    ensures forall i, j :: 0 <= i < j < |standings| && standings[i].points == standings[j].points ==>
              ScoredFirst(SeasonScorers(rounds, ByDriver), standings[i].key, standings[j].key)
  {
    standings, noData := Tabulate(rounds, ByDriver);
  }

  /** `get_constructor_standings_local`: totals keyed by team name, which
      is also the line's label. */
  method ConstructorStandings(rounds: seq<Round>) returns (standings: seq<Standing>, noData: seq<NoData>)
    ensures noData == SeasonLog(rounds)
    ensures SortedDesc(standings)
    ensures StandingsAgree(standings, rounds, ByTeam)
    ensures forall i :: 0 <= i < |standings| ==> standings[i].name == standings[i].key
    ensures forall v :: WithPoints(standings, v) == WithPoints(Listing(Run(rounds, ByTeam).0), v)
    ensures forall i, j :: 0 <= i < j < |standings| && standings[i].points == standings[j].points ==>
              ScoredFirst(SeasonScorers(rounds, ByTeam), standings[i].key, standings[j].key)
  {
    standings, noData := Tabulate(rounds, ByTeam);
    forall i | 0 <= i < |standings| ensures standings[i].name == standings[i].key {
      TeamNamesAreKeys(rounds, standings[i].key);
    }
  }
}
