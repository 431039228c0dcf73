/** The constructor roster of a season: every team name found in the race
    result tables of its eligible rounds, sorted and without repeats, or a
    not-found error when there is none. */
module Roster {
  import opened Wrappers
  import opened Results

  datatype RosterError = NotFound

  /** Teams in one round's race table. Rounds of another format add none;
      neither does a race that fails to load or has no table. Positions are
      not read here, so a table with unconvertible positions still counts. */
  function RoundTeams(rd: Round): set<string>
  {
    if Eligible(rd.format) && rd.race.Rows? then
      set i | 0 <= i < |rd.race.rows| :: rd.race.rows[i].teamName
    else {}
  }

  /** The union of the teams of every round of the schedule. */
  function SeasonTeams(rounds: seq<Round>): (r: set<string>)
    ensures forall i :: 0 <= i < |rounds| ==> RoundTeams(rounds[i]) <= r
    ensures forall t :: t in r ==> exists i :: 0 <= i < |rounds| && t in RoundTeams(rounds[i])
    decreases |rounds|
  {
    if rounds == [] then {}
    else
      var prefix := rounds[..|rounds| - 1];
      assert forall i :: 0 <= i < |prefix| ==> prefix[i] == rounds[i];
      SeasonTeams(prefix) + RoundTeams(rounds[|rounds| - 1])
  }

  /** A team is on the roster exactly when some row of the race table of
      some eligible round names it. */
  lemma {:induction false} SeasonTeamsNamed(rounds: seq<Round>, team: string)
    ensures team in SeasonTeams(rounds) <==>
              exists i, j :: 0 <= i < |rounds| && Eligible(rounds[i].format) && rounds[i].race.Rows?
                             && 0 <= j < |rounds[i].race.rows| && rounds[i].race.rows[j].teamName == team
    decreases |rounds|
  {
    if rounds != [] {
      var prefix := rounds[..|rounds| - 1];
      var last := rounds[|rounds| - 1];
      SeasonTeamsNamed(prefix, team);
      if team in SeasonTeams(rounds) {
        if team in RoundTeams(last) {
          var j :| 0 <= j < |last.race.rows| && last.race.rows[j].teamName == team;
          assert rounds[|rounds| - 1] == last;
        } else {
          var i, j :| 0 <= i < |prefix| && Eligible(prefix[i].format) && prefix[i].race.Rows?
                      && 0 <= j < |prefix[i].race.rows| && prefix[i].race.rows[j].teamName == team;
          assert rounds[i] == prefix[i];
        }
      }
      if exists i, j :: 0 <= i < |rounds| && Eligible(rounds[i].format) && rounds[i].race.Rows?
                        && 0 <= j < |rounds[i].race.rows| && rounds[i].race.rows[j].teamName == team {
        var i, j :| 0 <= i < |rounds| && Eligible(rounds[i].format) && rounds[i].race.Rows?
                    && 0 <= j < |rounds[i].race.rows| && rounds[i].race.rows[j].teamName == team;
        if i < |prefix| {
          assert prefix[i] == rounds[i];
        } else {
          assert rounds[i].race.rows[j].teamName in RoundTeams(last);
        }
      }
    }
  }

  /** Python's `<` on str: lexicographic by code point, a proper prefix
      coming first. */
  predicate Below(a: string, b: string)
    decreases |a|
  {
    if a == [] then b != []
    else b != [] && (a[0] < b[0] || (a[0] == b[0] && Below(a[1..], b[1..])))
  }

  lemma {:induction false} BelowIrreflexive(a: string)
    ensures !Below(a, a)
    decreases |a|
  {
    if a != [] {
      BelowIrreflexive(a[1..]);
    }
  }

  lemma {:induction false} BelowTransitive(a: string, b: string, c: string)
    requires Below(a, b) && Below(b, c)
    ensures Below(a, c)
    decreases |a|
  {
    if a != [] && a[0] == b[0] && b[0] == c[0] {
      BelowTransitive(a[1..], b[1..], c[1..]);
    }
  }

  lemma {:induction false} BelowTotal(a: string, b: string)
    requires a != b
    ensures Below(a, b) || Below(b, a)
    decreases |a|
  {
    if a != [] && b != [] && a[0] == b[0] {
      assert a == [a[0]] + a[1..] && b == [b[0]] + b[1..];
      BelowTotal(a[1..], b[1..]);
    }
  }

  predicate StrictlyAscending(s: seq<string>)
  {
    forall i, j :: 0 <= i < j < |s| ==> Below(s[i], s[j])
  }

  /** The least name of a non-empty set. */
  method LeastTeam(teams: set<string>) returns (m: string)
    requires teams != {}
    ensures m in teams
    ensures forall t :: t in teams && t != m ==> Below(m, t)
  {
    m :| m in teams;
    var rest := teams - {m};
    while rest != {}
      invariant rest <= teams && m in teams && m !in rest
      invariant forall t :: t in teams && t !in rest && t != m ==> Below(m, t)
      decreases |rest|
    {
      var t :| t in rest;
      if Below(t, m) {
        forall u | u in teams && u !in rest && u != m
          ensures Below(t, u)
        {
          BelowTransitive(t, m, u);
        }
        m := t;
      } else {
        BelowTotal(t, m);
      }
      rest := rest - {t};
    }
  }

  /** `sorted(list(all_teams))`: the set's names in ascending order. */
  method SortedTeams(teams: set<string>) returns (s: seq<string>)
    ensures StrictlyAscending(s)
    ensures forall t :: t in s <==> t in teams
  {
    s := [];
    var rest := teams;
    while rest != {}
      invariant rest <= teams
      invariant forall t :: t in teams <==> t in rest || t in s
      invariant forall t :: t in rest ==> t !in s
      invariant StrictlyAscending(s)
      invariant forall i, t :: 0 <= i < |s| && t in rest ==> Below(s[i], t)
      decreases |rest|
    {
      var m := LeastTeam(rest);
      s := s + [m];
      rest := rest - {m};
    }
  }

  /** Two ascending lists of the same names are the same list: the sorted
      roster is determined by the set of teams alone. */
  lemma {:induction false} AscendingUnique(s1: seq<string>, s2: seq<string>)
    requires StrictlyAscending(s1) && StrictlyAscending(s2)
    requires forall t :: t in s1 <==> t in s2
    ensures s1 == s2
    decreases |s1|
  {
    assert s2 != [] ==> s2[0] in s1;
    if s1 != [] {
      assert s1[0] in s2;
      assert s2[0] in s1;
      var a :| 0 <= a < |s2| && s2[a] == s1[0];
      var b :| 0 <= b < |s1| && s1[b] == s2[0];
      if s1[0] != s2[0] {
        assert a > 0 && b > 0;
        assert Below(s2[0], s1[0]) && Below(s1[0], s2[0]);
        BelowTransitive(s1[0], s2[0], s1[0]);
        BelowIrreflexive(s1[0]);
        assert false;
      }
      forall t ensures t in s1[1..] <==> t in s2[1..] {
        if t in s1[1..] {
          var i :| 1 <= i < |s1| && s1[i] == t;
          assert Below(s1[0], t);
          BelowIrreflexive(t);
          assert t in s2 && t != s2[0];
          assert s2 == [s2[0]] + s2[1..];
        }
        if t in s2[1..] {
          var i :| 1 <= i < |s2| && s2[i] == t;
          assert Below(s2[0], t);
          BelowIrreflexive(t);
          assert t in s1 && t != s1[0];
          assert s1 == [s1[0]] + s1[1..];
        }
      }
      AscendingUnique(s1[1..], s2[1..]);
      assert s1 == [s1[0]] + s1[1..] && s2 == [s2[0]] + s2[1..];
    }
  }

  /** `get_constructors`: collects every team name of the race tables of
      the eligible rounds and returns them sorted, or not-found when there
      are none. */
  method Constructors(rounds: seq<Round>) returns (r: Result<seq<string>, RosterError>)
    ensures r.Err? <==> SeasonTeams(rounds) == {}
    ensures r.Ok? ==> StrictlyAscending(r.value)
    ensures r.Ok? ==> forall t :: t in r.value <==> t in SeasonTeams(rounds)
  {
    var allTeams: set<string> := {};
    var n := 0;
    while n < |rounds|
      invariant 0 <= n <= |rounds|
      invariant allTeams == SeasonTeams(rounds[..n])
    {
      assert rounds[..n + 1][..n] == rounds[..n];
      var rd := rounds[n];
      if !Eligible(rd.format) {
        n := n + 1;
        continue;
      }
      match rd.race {
        case Rows(rows) =>
          var i := 0;
          while i < |rows|
            invariant 0 <= i <= |rows|
            invariant allTeams == SeasonTeams(rounds[..n]) + set j | 0 <= j < i :: rows[j].teamName
          {
            allTeams := allTeams + {rows[i].teamName};
            i := i + 1;
          }
        case _ =>
      }
      n := n + 1;
    }
    assert rounds[..n] == rounds;
    var teams := SortedTeams(allTeams);
    if teams == [] {
      return Err(NotFound);
    }
    assert teams[0] in allTeams;
    return Ok(teams);
  }
}
