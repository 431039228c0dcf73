# fast-f1-api standings core, in Dafny

The fast-f1-api service serves Formula 1 data over HTTP. Besides passing
the data through, it computes two things of its own from a season's result
tables:

- **local championship standings**, for drivers and for constructors
  (`get_driver_standings_local`, `get_constructor_standings_local`);
- **the constructor roster** of a season (`get_constructors`).

This project models that computation and proves what it yields.

The points rules are two tables:

- a race awards 25-18-15-12-10-8-6-4-2-1 to the top ten;
- a sprint awards 8-7-6-5-4-3-2-1 to the top eight;
- a race adds one bonus point to the fastest-lap holder, if that driver
  finished in the top ten.

Each standings handler works in three stages:

1. It walks the schedule. It skips every round whose `EventFormat` is
   neither `conventional` nor `sprint`.
2. It loads each eligible round's race, and then its sprint. It adds each
   row's positive points to a points dictionary and stores the row's label
   in a names dictionary. It records a "Race-n" or "Sprint-n" label for
   every session without usable data.
3. It lists the dictionary and sorts it by points, highest first.

Modules, one per file:

- `Wrappers`: `Option` and `Result`.
- `Results`: the inputs as values:
  - a result row;
  - what loading a session yields: `Failed` (an exception), `NoTable`
    (`results is None`) or the rows;
  - a schedule line;
  - the keying: driver number with the full name, or team name with the
    team name.
- `Scoring`:
  - the two points tables, with Python's negative indexing;
  - when a row raises;
  - the fastest-lap holder;
  - the points of one row.
- `Ranking`: a standings line, and the stable descending sort by points.
- `Tallies`:
  - the two dictionaries as maps;
  - the keys' first-insertion order, which the final list follows;
  - `Add`, `Listing` and the sum of all totals.
- `Season`:
  - the aggregation as functions: one table (`ScoreTable`), one round
    (`StepRound`) and the schedule (`Run`);
  - independent reference definitions of what each entrant's total, its
    stored name and the log must be;
  - the lemmas that tie the two together, and the season-level
    properties.
- `Standings`: the handlers as the loops they are:
  - `ScoreRows`, the row loop, with its dictionary update in `Credit`;
  - `Accumulate`, the round loop;
  - `Tabulate`, the listing and sort;
  - `DriverStandings` and `ConstructorStandings`.
- `Roster`: `get_constructors`:
  - the union of team names over the race tables of eligible rounds;
  - sorted by Python's string order;
  - not-found when the union is empty.

How the source's behaviour is represented:

- **An exception while scoring.** A row whose `int(r["Position"])` fails
  has position `None`. A row whose `F1_POINTS[pos-1]` or
  `SPRINT_POINTS[pos-1]` index falls below the table's negative range also
  raises. Either one ends that session's loop part-way, and the points
  already added stay.
- **A race that raises.** Whether it failed to load or raised while being
  scored, it logs "Race-n" and ends the round, so the sprint is not looked
  at.
- **A race without a table.** It logs "Race-n", and the sprint is still
  scored.
- **Positions 0 to -9.** Python reads the points table from its end, so a
  position of 0 earns tenth place's point. The model does the same
  (`Scoring.NonPositivePositionsWrap`).

## Model

| member | source | states |
|---|---|---|
| Scoring.RacePoints | main.py:17 | a race finish earns points exactly when it is in the top ten, at most 25 |
| Scoring.SprintPoints | main.py:18 | a sprint finish earns points exactly when it is in the top eight, at most 8 |
| Scoring.TablesStrictlyDecrease | main.py:17-18 | a better finish never earns fewer points, and strictly more inside the scoring places |
| Scoring.NonPositivePositionsWrap | main.py:314-315 | a position of 0 down to -9 (race) or -7 (sprint) scores as the position one table length lower, because the index counts from the end |
| Scoring.MinLapTime | main.py:305 | none exactly when no row has a fastest-lap time, otherwise a time some row has that no row beats |
| Scoring.FirstWithLapTime | main.py:305-307 | the first row in table order with the given time |
| Scoring.FastestLapHolder | main.py:304-307 | no holder exactly when no row has a time; otherwise the driver number of a row with the minimum time and no earlier row with that time |
| Scoring.FastestLapRowUnique | main.py:305-307 | at most one row holds the fastest lap |
| Scoring.RowPoints | main.py:313-318 | a race row scores exactly when it is in the top ten, at most 26; a sprint row scores exactly when it is in the top eight, at most 8 |
| Scoring.FastestLapBonus | main.py:317-318 | a race row earns one point above its table points exactly when its driver holds the fastest lap and it is in the top ten |
| Scoring.SprintHasNoBonus | main.py:340-342 | a sprint row earns its table points whoever holds the fastest lap |
| Scoring.BonusAtMostOnce | main.py:304-318 | in a race table with distinct driver numbers, at most one row earns the bonus, and it holds the fastest lap |
| Scoring.WinnerWithFastestLapScores26 | main.py:313-318 | a race winner with the fastest lap scores 26 |
| Scoring.SprintWinnerScores8 | main.py:340-342 | a sprint winner scores 8 |
| Tallies.Add | main.py:319-321 | the entrant's total grows by the points, its name becomes the row's, every other entry stays, a new key joins the end of the key order |
| Tallies.Listing | main.py:353-356 | one line per key in key order, carrying that key's total and stored name, each total positive |
| Tallies.AddTotal | main.py:320 | adding points to one entrant raises the sum of all totals by exactly those points |
| Ranking.SortByPointsDesc | main.py:357 | the result is sorted by points, highest first, is a permutation of the input, and keeps the input order among equal totals |
| Ranking.StableSortUnique | main.py:357 | two lists that both satisfy that contract for the same input are equal, so the result does not depend on the sorting algorithm |
| Ranking.StableKeepsTies | main.py:357 | two entries with equal points stand in the sorted list in the order they had in the list being sorted |
| Ranking.Insert | main.py:357 | inserting into a sorted list after all entries with at least as many points keeps it sorted, adds exactly that entry, and keeps the order of each points value |
| Season.ScoreTable | main.py:309-322 | the running totals stay well formed; the flag is true exactly when no row of the table raises |
| Season.SprintStep | main.py:330-352 | the sprint half of a round keeps the running totals well formed; its effect on totals, names and log is `Season.SprintStepMatches` |
| Season.StepRound | main.py:292-352 | one round keeps the running totals well formed |
| Season.Run | main.py:289-352 | the whole schedule keeps the running totals well formed |
| Season.ScoreTablePoints | main.py:309-322 | scoring a table adds to each entrant exactly the points of its rows before the first row that raises |
| Season.ScoreTableNames | main.py:321 | after a table, an entrant's stored name is that of its last scoring row in the table, else unchanged |
| Season.ScoreTableTotal | main.py:319-320 | scoring a table adds exactly the points its scored rows award |
| Season.SprintStepMatches | main.py:330-352 | a sprint logs "Sprint-n" exactly when it fails, has no table or raises, and adds its table's points |
| Season.NoRaceTableMatches | main.py:324-325 | a race without a table adds nothing, logs "Race-n", and the sprint is scored |
| Season.RaceRowsMatches | main.py:302-323 | a race table adds its points; the sprint follows unless the table raised |
| Season.StepRoundMatches | main.py:292-352 | one round changes the totals, names and log exactly as the per-round reference definitions say |
| Season.RunMatchesReference | main.py:285-352 | after the schedule, each entrant's total, stored name and the log equal the reference definitions summed over the rounds |
| Tallies.FirstOccurrences | main.py:320 | the keys of a sequence, each once, exactly those occurring in it, an earlier one always occurring before the first occurrence of a later one |
| Tallies.ExtendFacts | main.py:320 | extending a key order with a sequence of keys keeps it as a prefix, adds exactly the new keys once each, in order of first occurrence |
| Tallies.ExtendAppend | main.py:320 | extending by two key sequences in turn is extending by the two joined |
| Tallies.AddOrder | main.py:320 | one update appends its key to the dictionary order exactly when the key is new |
| Season.ScoreTableOrder | main.py:309-322 | after a table, the dictionary order is the old order extended by the keys of the table's scoring rows before the first raise |
| Season.StepRoundOrder | main.py:292-352 | after a round, the dictionary order is extended by the round's scoring keys: the race's, then the sprint's when it is reached |
| Season.RunOrder | main.py:289-352 | the dictionary order after the schedule is the first occurrences of the season's scoring keys in processing order |
| Season.RunOrderIsFirstScoring | main.py:319-321 | of two keys in dictionary order, the earlier scored before the later first did |
| Season.SeasonPointsAppend | main.py:292 | an entrant's total over two stretches of the schedule is the sum of its totals over each |
| Season.SeasonLogAppend | main.py:291 | the log of two stretches of the schedule is the two logs one after the other |
| Season.AccumulatedNeverRemoved | main.py:319-321 | later rounds never lower a total or remove a key, and the log only grows at its end |
| Season.EligibleRounds | main.py:293-294 | a round is kept exactly when it is on the schedule and its format is one of the two eligible ones |
| Season.EligibleRoundsAppend | main.py:292-294 | filtering keeps schedule order: the eligible rounds of two stretches are those of the first followed by those of the second |
| Season.IneligibleRoundsIgnored | main.py:293-294 | rounds of any other format change neither the totals nor the log |
| Season.NoEligibleRoundsNoStandings | main.py:292-294 | a schedule without an eligible round yields no totals and no labels |
| Season.FailedRaceSkipsSprint | main.py:326-328 | a race that fails or raises logs exactly "Race-n", keeps the points added before the failure, and the sprint's contents make no difference |
| Season.MissingRaceTableScoresSprint | main.py:324-325 | a race without a table logs "Race-n" and the round adds exactly the sprint's points |
| Season.DriverAndTeamTotalsAgree | main.py:319-320 | the driver totals and the team totals both sum to every point the season awards |
| Season.TeamNamesAreKeys | main.py:395 | a constructor's stored name is the team name itself |
| Standings.ScoreOneRow | main.py:310-318 | reports a raise exactly when the position does not convert or the index is out of range, and otherwise yields the row's points |
| Standings.Credit | main.py:319-321 | the two dictionaries and the key order after one update are those of `Tallies.Add` |
| Standings.ScoreRows | main.py:309-322 | the row loop yields the dictionaries and the completion flag of `Season.ScoreTable` |
| Standings.Accumulate | main.py:289-352 | the schedule loop yields the dictionaries and the log of `Season.Run` |
| Standings.Tabulate | main.py:353-358 | the log is the reference log; the list is the stable descending sort of the listing, with each entrant's season total and last scoring name, every entrant with a positive total once, entrants with equal totals in the order they first scored |
| Standings.SortedListingAgrees | main.py:353-357 | any stable descending sort of the listing carries exactly the reference totals and names |
| Standings.TiesInFirstScoringOrder | main.py:353-357 | in any stable descending sort of the listing, two entrants with equal totals stand in the order in which they first scored over the season |
| Standings.DriverStandings | main.py:285-360 | totals by driver number under the full name, sorted highest first, entrants with equal totals in the order they first scored over the season, and the reference log |
| Standings.ConstructorStandings | main.py:362-428 | totals by team name, labelled with the team name, sorted highest first, teams with equal totals in the order they first scored over the season, and the reference log |
| Roster.SeasonTeams | main.py:151-161 | the season's team set is exactly the union of the team sets of its rounds |
| Roster.SeasonTeamsNamed | main.py:152-161 | a team is on the roster exactly when a row of the race table of some eligible round names it |
| Roster.BelowIrreflexive | main.py:164 | no name sorts before itself |
| Roster.BelowTransitive | main.py:164 | the string order is transitive |
| Roster.BelowTotal | main.py:164 | of two different names, one sorts before the other |
| Roster.LeastTeam | main.py:164 | the returned name is in the set and sorts before every other name in it |
| Roster.SortedTeams | main.py:164 | the list is strictly ascending and holds exactly the set's names |
| Roster.AscendingUnique | main.py:164 | two strictly ascending lists of the same names are equal, so the sorted roster depends only on the set |
| Roster.Constructors | main.py:147-167 | not-found exactly when no eligible race table names a team; otherwise the team names, strictly ascending, each once |

## Left out

- Fetching the schedule and the sessions is not modelled. The data
  provider calls, `session.load()` and the HTTP layer become the input
  values `Round` and `Fetch`.
- The `print` of the per-race and per-sprint points logs is left out.
- The whole-handler `except` that turns any other error into HTTP 500 is
  left out. The model's inputs cannot raise anywhere else.
- The outer `HTTPException` re-raise is left out.
- Scoring.FastestLapHolder: the guard on a `FastestLap` column with some
  non-empty value is modelled as "some row has a fastest-lap time".
  - A table with no `FastestLap` column, but with lap times, is taken to
    have a holder.
  - A missing `FastestLapTime` column, which would raise, is not
    represented.
  - Lap times are whole milliseconds, not pandas timedeltas.
- Standings labels: "Race-n" and "Sprint-n" are the datatype `NoData`,
  not strings.
- Standings output: the response dictionaries (`season`,
  `driver_standings`, `constructor_standings`) are the method's
  out-parameters.
- Ranking.SortByPointsDesc: this is an insertion sort, not Python's
  timsort. `Ranking.StableSortUnique` shows every stable descending sort
  gives the same list, so the two agree.
- Roster.Constructors: a `TeamName` that is a missing value (NaN in
  pandas) is treated as an ordinary string.
