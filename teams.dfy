/** Win counts of a team over its matches (leagueprobs/teams.py). */
module Teams {
  import opened Wrappers
  import opened Matches

  /** A team and all of its matches, played or not, in schedule order. */
  datatype Team = Team(name: string, matches: seq<Match>)

  /** `wins_in_second_half` only counts matches of weeks after this one. */
  const SecondHalfAfterWeek := 4

  /** Number of matches of `ms` that `name` won. */
  function CountWins(ms: seq<Match>, name: string): (n: nat)
    ensures n <= |ms|
  {
    if ms == [] then 0
    else CountWins(ms[..|ms| - 1], name) + (if Winner(ms[|ms| - 1]) == Some(name) then 1 else 0)
  }

  /** `Team.wins`. */
  function Wins(t: Team): nat
  {
    CountWins(t.matches, t.name)
  }

  /** Number of matches of `ms` with a result. */
  function CountPlayed(ms: seq<Match>): nat
  {
    if ms == [] then 0
    else CountPlayed(ms[..|ms| - 1]) + (if ms[|ms| - 1].result.Some? then 1 else 0)
  }

  lemma {:induction false} CountWinsConcat(a: seq<Match>, b: seq<Match>, name: string)
    ensures CountWins(a + b, name) == CountWins(a, name) + CountWins(b, name)
  {
    if b != [] {
      assert (a + b)[..|a + b| - 1] == a + b[..|b| - 1];
      CountWinsConcat(a, b[..|b| - 1], name);
    } else {
      assert a + b == a;
    }
  }

  /** Unplayed matches never add a win: wins are bounded by the played matches. */
  lemma {:induction false} WinsAtMostPlayed(ms: seq<Match>, name: string)
    ensures CountWins(ms, name) <= CountPlayed(ms)
  {
    if ms != [] {
      WinsAtMostPlayed(ms[..|ms| - 1], name);
    }
  }

  /** Whether match `m` is between `name` and `opponent` (the filter of `head_to_head_wins`). */
  predicate Involves(m: Match, name: string, opponent: string)
  {
    (name == m.teams.0 || name == m.teams.1) && (opponent == m.teams.0 || opponent == m.teams.1)
  }

  /** The matches of `ms` that contain both `name` and `opponent`, in order. */
  function Matchups(ms: seq<Match>, name: string, opponent: string): seq<Match>
  {
    if ms == [] then []
    else
      Matchups(ms[..|ms| - 1], name, opponent)
      + (if Involves(ms[|ms| - 1], name, opponent) then [ms[|ms| - 1]] else [])
  }

  /**
   * `head_to_head_wins` as a sum: for each listed opponent, the number of won
   * matches containing both names. Opponents are named, since only their names are read.
   */
  function WinsAgainst(ms: seq<Match>, name: string, opponents: seq<string>): nat
  {
    if opponents == [] then 0
    else
      WinsAgainst(ms, name, opponents[..|opponents| - 1])
      + CountWins(Matchups(ms, name, opponents[|opponents| - 1]), name)
  }

  /** `Team.head_to_head_wins(other_teams)`, with the source's two nested loops. */
  method HeadToHeadWins(team: Team, opponents: seq<string>) returns (wins: nat)
    ensures wins == WinsAgainst(team.matches, team.name, opponents)
  {
    wins := 0;
    for i := 0 to |opponents|
      invariant wins == WinsAgainst(team.matches, team.name, opponents[..i])
    {
      var matchups := Matchups(team.matches, team.name, opponents[i]);
      var won := CountMatchupWins(matchups, team.name);
      wins := wins + won;
      assert opponents[..i + 1][..i] == opponents[..i];
    }
    assert opponents[..|opponents|] == opponents;
  }

  /** The inner loop of `head_to_head_wins`: the matchups `name` won. */
  method CountMatchupWins(matchups: seq<Match>, name: string) returns (wins: nat)
    ensures wins == CountWins(matchups, name)
  {
    wins := 0;
    for j := 0 to |matchups|
      invariant wins == CountWins(matchups[..j], name)
    {
      assert matchups[..j + 1][..j] == matchups[..j];
      if Winner(matchups[j]) == Some(name) {
        wins := wins + 1;
      }
    }
    assert matchups[..|matchups|] == matchups;
  }

  /** The head-to-head count adds up over opponents; a repeated opponent counts twice. */
  lemma {:induction false} WinsAgainstConcat(ms: seq<Match>, name: string, a: seq<string>, b: seq<string>)
    ensures WinsAgainst(ms, name, a + b) == WinsAgainst(ms, name, a) + WinsAgainst(ms, name, b)
  {
    if b != [] {
      assert (a + b)[..|a + b| - 1] == a + b[..|b| - 1];
      assert (a + b)[|a + b| - 1] == b[|b| - 1];
      WinsAgainstConcat(ms, name, a, b[..|b| - 1]);
    } else {
      assert a + b == a;
    }
  }

  /** How many of `opponents` make `m` a won match against them. */
  function Hits(m: Match, name: string, opponents: seq<string>): nat
  {
    if opponents == [] then 0
    else
      Hits(m, name, opponents[..|opponents| - 1])
      + (if Involves(m, name, opponents[|opponents| - 1]) && Winner(m) == Some(name) then 1 else 0)
  }

  lemma {:induction false} WinsAgainstSnoc(ms: seq<Match>, m: Match, name: string, opponents: seq<string>)
    ensures WinsAgainst(ms + [m], name, opponents) == WinsAgainst(ms, name, opponents) + Hits(m, name, opponents)
  {
    if opponents != [] {
      var o := opponents[|opponents| - 1];
      assert (ms + [m])[..|ms + [m]| - 1] == ms;
      WinsAgainstSnoc(ms, m, name, opponents[..|opponents| - 1]);
      var before := Matchups(ms, name, o);
      if Involves(m, name, o) {
        assert Matchups(ms + [m], name, o) == before + [m];
        assert (before + [m])[..|before + [m]| - 1] == before;
      } else {
        assert Matchups(ms + [m], name, o) == before + [];
        assert before + [] == before;
      }
    }
  }

  lemma {:induction false} NoHits(m: Match, name: string, opponents: seq<string>)
    requires forall i :: 0 <= i < |opponents| ==> opponents[i] != m.teams.0 && opponents[i] != m.teams.1
    ensures Hits(m, name, opponents) == 0
  {
    if opponents != [] {
      NoHits(m, name, opponents[..|opponents| - 1]);
    }
  }

  /** Distinct opponents other than the team itself meet a given match at most once. */
  lemma {:induction false} HitsAtMostOne(m: Match, name: string, opponents: seq<string>)
    requires forall i, j :: 0 <= i < j < |opponents| ==> opponents[i] != opponents[j]
    requires name !in opponents
    ensures Hits(m, name, opponents) <= if Winner(m) == Some(name) then 1 else 0
  {
    if opponents != [] {
      var init := opponents[..|opponents| - 1];
      var o := opponents[|opponents| - 1];
      if Involves(m, name, o) && Winner(m) == Some(name) {
        forall i | 0 <= i < |init| ensures init[i] != m.teams.0 && init[i] != m.teams.1 {
          assert init[i] == opponents[i];
        }
        NoHits(m, name, init);
      } else {
        HitsAtMostOne(m, name, init);
      }
    }
  }

  /**
   * Against distinct opponents, none of them the team itself, head-to-head wins never
   * exceed the team's total wins.
   */
  lemma {:induction false} WinsAgainstAtMostWins(ms: seq<Match>, name: string, opponents: seq<string>)
    requires forall i, j :: 0 <= i < j < |opponents| ==> opponents[i] != opponents[j]
    requires name !in opponents
    ensures WinsAgainst(ms, name, opponents) <= CountWins(ms, name)
  {
    if ms == [] {
      NoWinsInNothing(name, opponents);
    } else {
      var init := ms[..|ms| - 1];
      var m := ms[|ms| - 1];
      assert init + [m] == ms;
      WinsAgainstSnoc(init, m, name, opponents);
      HitsAtMostOne(m, name, opponents);
      WinsAgainstAtMostWins(init, name, opponents);
    }
  }

  lemma {:induction false} NoWinsInNothing(name: string, opponents: seq<string>)
    ensures WinsAgainst([], name, opponents) == 0
  {
    if opponents != [] {
      NoWinsInNothing(name, opponents[..|opponents| - 1]);
    }
  }

  /** Whether a match counts for `wins_in_second_half`: late enough and with a truthy winner. */
  predicate InSecondHalf(m: Match)
  {
    m.week > SecondHalfAfterWeek && Winner(m).Some? && Winner(m).value != ""
  }

  /** The second-half matches of `ms` that have a winner, in order. */
  function SecondHalfMatches(ms: seq<Match>): seq<Match>
  {
    if ms == [] then []
    else SecondHalfMatches(ms[..|ms| - 1]) + (if InSecondHalf(ms[|ms| - 1]) then [ms[|ms| - 1]] else [])
  }

  /** `Team.wins_in_second_half()`, with the source's counting loop. */
  method WinsInSecondHalf(team: Team) returns (wins: nat)
    ensures wins == CountWins(SecondHalfMatches(team.matches), team.name)
  {
    var secondHalf := SecondHalfMatches(team.matches);
    wins := 0;
    for i := 0 to |secondHalf|
      invariant wins == CountWins(secondHalf[..i], team.name)
    {
      assert secondHalf[..i + 1][..i] == secondHalf[..i];
      if Winner(secondHalf[i]) == Some(team.name) {
        wins := wins + 1;
      }
    }
    assert secondHalf[..|secondHalf|] == secondHalf;
  }

  /** Second-half wins are some of the team's wins. */
  lemma {:induction false} SecondHalfAtMostWins(ms: seq<Match>, name: string)
    ensures CountWins(SecondHalfMatches(ms), name) <= CountWins(ms, name)
  {
    if ms != [] {
      var init := ms[..|ms| - 1];
      var m := ms[|ms| - 1];
      SecondHalfAtMostWins(init, name);
      if InSecondHalf(m) {
        var s := SecondHalfMatches(init) + [m];
        assert s[..|s| - 1] == SecondHalfMatches(init);
      } else {
        assert SecondHalfMatches(ms) == SecondHalfMatches(init) + [];
        assert SecondHalfMatches(init) + [] == SecondHalfMatches(init);
      }
    }
  }

  /**
   * Matches of the first weeks never change the second-half count: two schedules that
   * agree on every match in a week after the split give the same count.
   */
  lemma {:induction false} SecondHalfIgnoresFirstHalf(ms: seq<Match>, ms': seq<Match>, name: string)
    requires |ms| == |ms'|
    requires forall i :: 0 <= i < |ms| ==> ms[i].week == ms'[i].week
    requires forall i :: 0 <= i < |ms| && ms[i].week > SecondHalfAfterWeek ==> ms[i] == ms'[i]
    ensures SecondHalfMatches(ms) == SecondHalfMatches(ms')
    ensures CountWins(SecondHalfMatches(ms), name) == CountWins(SecondHalfMatches(ms'), name)
  {
    if ms != [] {
      SecondHalfIgnoresFirstHalf(ms[..|ms| - 1], ms'[..|ms'| - 1], name);
    }
  }
}
