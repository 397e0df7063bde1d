/**
 * The `PossibilityHandler` of leagueprobs/possibility.py: it splits the
 * season's matches into finished and upcoming ones, plays out every outcome
 * vector of the upcoming matches, tallies the ranks each scenario's standings
 * give, and folds those tallies into the cumulated outcomes.
 */
module Possibility {
  import opened Wrappers
  import opened OrderedDicts
  import opened Matches
  import opened Teams
  import opened Standings
  import LeagueTable
  import opened Outcomes

  /**
   * The tiebreaker that turns a generated league (its teams and its rank ->
   * name standings) into rank -> names standings; the source calls
   * `make_tiebreaker`, which it does not define.
   */
  type Resolver = (seq<Team>, Dict<int, string>) -> Buckets

  /** The matches of one scenario: the finished ones, then the upcoming ones with the bits' outcomes. */
  function ScenarioMatches(finished: seq<Match>, upcoming: seq<Match>, bits: seq<int>): seq<Match>
    requires |upcoming| <= |bits|
  {
    finished + WithOutcomes(upcoming, bits)
  }

  /** The standings `resolve` makes of the league those matches generate. */
  function ScenarioStandings(finished: seq<Match>, upcoming: seq<Match>, bits: seq<int>, resolve: Resolver): Buckets
    requires |upcoming| <= |bits|
  {
    var teams := LeagueTable.LeagueTeams(ScenarioMatches(finished, upcoming, bits));
    resolve(teams, LeagueTable.MakeStandings(teams))
  }

  /** The standings of every scenario, in enumeration order. */
  function Scenarios(finished: seq<Match>, upcoming: seq<Match>, resolve: Resolver): (sts: seq<Buckets>)
    ensures |sts| == Pow2(|upcoming|)
  {
    var ps := Product(|upcoming|);
    seq(|ps|, k requires 0 <= k < |ps| =>
      ProductShape(|upcoming|, k);
      ScenarioStandings(finished, upcoming, ps[k], resolve))
  }

  /**
   * When the resolver's standings partition the teams and list `x` in every
   * scenario, the counts for `x` folded over all scenarios add up to exactly
   * 2^|upcoming|.
   */
  lemma ScenarioTotals(finished: seq<Match>, upcoming: seq<Match>, resolve: Resolver, x: string, ks: seq<int>)
    requires forall i :: 0 <= i < |Scenarios(finished, upcoming, resolve)| ==>
      Partition(Scenarios(finished, upcoming, resolve)[i]) && x in Flatten(Scenarios(finished, upcoming, resolve)[i])
    requires Covers(ks, RanksOf(Aggregate(map[], TalliesOf(Scenarios(finished, upcoming, resolve))), x))
    ensures RankTotal(RanksOf(Aggregate(map[], TalliesOf(Scenarios(finished, upcoming, resolve))), x), ks) == Pow2(|upcoming|)
  {
    AggregateTotal(Scenarios(finished, upcoming, resolve), x, ks);
  }

  /** A set of ranks with no member is the empty set. */
  lemma EmptyIfNone(s: set<int>)
    requires forall k :: k !in s
    ensures s == {}
  {
    assert forall k :: k in s <==> k in {};
  }

  /** A non-empty set of ranks has a member to pick. */
  lemma NonEmptyHasRank(s: set<int>)
    ensures s != {} ==> exists k :: k in s
  {
    if forall k :: k !in s {
      EmptyIfNone(s);
    }
  }

  class PossibilityHandler {
    var matches: seq<Match>
    var finishedMatches: seq<Match>
    var upcomingMatches: seq<Match>
    var cumulatedOutcomes: Tally
    var playoffTeams: int

    /** The matches come from the league's file, which is not part of this model. */
    constructor (matches: seq<Match>, playoffTeams: int)
      ensures this.matches == matches
      ensures finishedMatches == FinishedMatches(matches)
      ensures upcomingMatches == UpcomingMatches(matches)
      ensures cumulatedOutcomes == map[]
      ensures this.playoffTeams == playoffTeams
    {
      this.matches := matches;
      finishedMatches := FinishedMatches(matches);
      upcomingMatches := UpcomingMatches(matches);
      cumulatedOutcomes := map[];
      this.playoffTeams := playoffTeams;
    }

    /**
     * `multiprocess_possibilities`: one tally per outcome vector, in
     * enumeration order, folded into the cumulated outcomes.
     */
    method MultiprocessPossibilities(resolve: Resolver)
      modifies this
      ensures matches == old(matches) && playoffTeams == old(playoffTeams)
      ensures finishedMatches == old(finishedMatches) && upcomingMatches == old(upcomingMatches)
      ensures cumulatedOutcomes ==
        Aggregate(old(cumulatedOutcomes), TalliesOf(Scenarios(finishedMatches, upcomingMatches, resolve)))
    {
      var queue := MapPossibilities(resolve);
      CumulateResults(queue);
    }

    /** `pool.map_async(get_possibilities, possibilities)`, one scenario after the other. */
    method MapPossibilities(resolve: Resolver) returns (queue: seq<Tally>)
      ensures queue == TalliesOf(Scenarios(finishedMatches, upcomingMatches, resolve))
    {
      var possibilities := Product(|upcomingMatches|);
      ghost var sts := Scenarios(finishedMatches, upcomingMatches, resolve);
      queue := [];
      for k := 0 to |possibilities|
        invariant queue == TalliesOf(sts[..k])
      {
        ProductShape(|upcomingMatches|, k);
        var tally := GetPossibilities(possibilities[k], resolve);
        assert tally == TallyOf(sts[k]);
        TalliesOfSnoc(sts, k);
        queue := queue + [tally];
      }
      assert sts[..|sts|] == sts;
    }

    /**
     * `get_possibilities`: play the bits out on a copy of the upcoming
     * matches, generate the league, resolve its standings and tally them.
     * The handler itself is left as it was.
     */
    method GetPossibilities(possibility: seq<int>, resolve: Resolver) returns (tally: Tally)
      requires |upcomingMatches| <= |possibility|
      ensures tally == TallyOf(ScenarioStandings(finishedMatches, upcomingMatches, possibility, resolve))
    {
      var upcoming := upcomingMatches;
      var upcomingCopy := new Match[|upcoming|](i requires 0 <= i < |upcoming| => upcoming[i]);
      assert upcomingCopy[..] == upcoming;
      SetUpcomingMatchesOutcomes(upcomingCopy, possibility);
      var generated := LeagueTable.GetLeagueFromMatches(finishedMatches + upcomingCopy[..]);
      var standings := resolve(generated.teams, generated.standings);
      tally := CumulateOutcome(standings);
    }

    /** `_set_upcoming_matches_outcomes`: match i gets the outcome of bit i, in place. */
    static method SetUpcomingMatchesOutcomes(upcoming: array<Match>, possibility: seq<int>)
      requires upcoming.Length <= |possibility|
      modifies upcoming
      ensures upcoming[..] == WithOutcomes(old(upcoming[..]), possibility)
    {
      for index := 0 to upcoming.Length
        invariant forall i :: 0 <= i < index ==> upcoming[i] == WithOutcome(old(upcoming[i]), possibility[i])
        invariant forall i :: index <= i < upcoming.Length ==> upcoming[i] == old(upcoming[i])
      {
        upcoming[index] := upcoming[index].(result := Some(if possibility[index] == 1 then (1, 0) else (0, 1)));
      }
    }

    /** `_cumulate_outcome`: count each team under each rank that lists it. */
    static method CumulateOutcome(standings: Buckets) returns (cumulatedResults: Tally)
      ensures cumulatedResults == TallyOf(standings)
    {
      cumulatedResults := map[];
      for i := 0 to |standings|
        invariant cumulatedResults == TallyOf(standings[..i])
      {
        cumulatedResults := CumulateBucket(cumulatedResults, standings[i].0, standings[i].1);
        assert standings[..i + 1][..i] == standings[..i];
      }
      assert standings[..|standings|] == standings;
    }

    /** The inner loop of `_cumulate_outcome`: the teams of one bucket. */
    static method CumulateBucket(tally: Tally, standing: int, teams: seq<string>) returns (cumulatedResults: Tally)
      ensures cumulatedResults == BucketTally(tally, standing, teams)
    {
      cumulatedResults := tally;
      for j := 0 to |teams|
        invariant cumulatedResults == BucketTally(tally, standing, teams[..j])
      {
        cumulatedResults := CumulateTeamOutcome(cumulatedResults, teams[j], standing);
        assert teams[..j + 1][..j] == teams[..j];
      }
      assert teams[..|teams|] == teams;
    }

    /** The body of `_cumulate_outcome`'s inner loop: one more count for a team at a rank. */
    static method CumulateTeamOutcome(tally: Tally, team: string, standing: int) returns (cumulatedResults: Tally)
      ensures cumulatedResults == Bump(tally, team, standing)
    {
      cumulatedResults := tally;
      if team !in cumulatedResults || cumulatedResults[team] == map[] {
        cumulatedResults := cumulatedResults[team := map[]];
      }
      var ranks := cumulatedResults[team];
      assert ranks == RanksOf(tally, team);
      if standing !in ranks || ranks[standing] == 0 {
        ranks := ranks[standing := 1];
      } else {
        ranks := ranks[standing := ranks[standing] + 1];
      }
      cumulatedResults := cumulatedResults[team := ranks];
      BumpIs(tally, team, standing, ranks);
    }

    /** `_cumulate_results`: fold the queued tallies in, adding 1 per team and rank a tally holds. */
    method CumulateResults(queue: seq<Tally>)
      modifies this
      ensures matches == old(matches) && playoffTeams == old(playoffTeams)
      ensures finishedMatches == old(finishedMatches) && upcomingMatches == old(upcomingMatches)
      ensures cumulatedOutcomes == Aggregate(old(cumulatedOutcomes), queue)
    {
      for q := 0 to |queue|
        invariant matches == old(matches) && playoffTeams == old(playoffTeams)
        invariant finishedMatches == old(finishedMatches) && upcomingMatches == old(upcomingMatches)
        invariant cumulatedOutcomes == Aggregate(old(cumulatedOutcomes), queue[..q])
      {
        AggregateSnoc(old(cumulatedOutcomes), queue, q);
        CumulateTally(queue[q]);
      }
      assert queue[..|queue|] == queue;
    }

    /** The body of `_cumulate_results` for one queued tally, team by team in any order. */
    method CumulateTally(result: Tally)
      modifies this
      ensures matches == old(matches) && playoffTeams == old(playoffTeams)
      ensures finishedMatches == old(finishedMatches) && upcomingMatches == old(upcomingMatches)
      ensures cumulatedOutcomes == AddTally(old(cumulatedOutcomes), result)
    {
      ghost var acc := cumulatedOutcomes;
      var remaining := result.Keys;
      while remaining != {}
        invariant remaining <= result.Keys
        invariant matches == old(matches) && playoffTeams == old(playoffTeams)
        invariant finishedMatches == old(finishedMatches) && upcomingMatches == old(upcomingMatches)
        invariant cumulatedOutcomes == AddTeams(acc, result, result.Keys - remaining)
        decreases remaining
      {
        var team :| team in remaining;
        ghost var done := result.Keys - remaining;
        AddTeamsStep(acc, result, done, team);
        CumulateTeam(team, result[team]);
        remaining := remaining - {team};
        assert result.Keys - remaining == done + {team};
      }
      assert result.Keys - remaining == result.Keys;
    }

    /** One team of a queued tally: add 1 at each of its ranks. */
    method CumulateTeam(team: string, standings: map<int, int>)
      modifies this
      ensures matches == old(matches) && playoffTeams == old(playoffTeams)
      ensures finishedMatches == old(finishedMatches) && upcomingMatches == old(upcomingMatches)
      ensures cumulatedOutcomes ==
        old(cumulatedOutcomes)[team := AddRanks(RanksOf(old(cumulatedOutcomes), team), standings.Keys)]
    {
      if team !in cumulatedOutcomes || cumulatedOutcomes[team] == map[] {
        cumulatedOutcomes := cumulatedOutcomes[team := map[]];
      }
      var ranks := CumulateRanks(cumulatedOutcomes[team], standings);
      cumulatedOutcomes := cumulatedOutcomes[team := ranks];
    }

    /** The innermost loop of `_cumulate_results`: one `+= 1` per rank, in any order. */
    static method CumulateRanks(start: map<int, int>, standings: map<int, int>) returns (ranks: map<int, int>)
      ensures ranks == AddRanks(start, standings.Keys)
    {
      ranks := start;
      var todo := standings.Keys;
      assert AddRanks(start, standings.Keys - todo) == start;
      while todo != {}
        invariant todo <= standings.Keys
        invariant ranks == AddRanks(start, standings.Keys - todo)
        decreases todo
      {
        NonEmptyHasRank(todo);
        var ranking :| ranking in todo;
        ghost var done := standings.Keys - todo;
        ghost var partial := ranks;
        AddRanksStep(start, done, ranking);
        if ranking !in ranks || ranks[ranking] == 0 {
          ranks := ranks[ranking := 0];
        }
        ranks := ranks[ranking := ranks[ranking] + 1];
        assert ranks == partial[ranking := (if ranking in partial then partial[ranking] else 0) + 1];
        todo := todo - {ranking};
        assert standings.Keys - todo == done + {ranking};
      }
      assert standings.Keys - todo == standings.Keys;
    }

    /**
     * `sort_result`: ranks 1 to 10 are filled in with 0 where missing, every
     * other entry is kept, and the key is the counts at ranks 1 to 10.
     */
    static method SortResult(standings: map<int, int>) returns (filled: map<int, int>, key: seq<int>)
      ensures forall k :: 1 <= k <= 10 ==> k in filled
      ensures forall k :: k in standings ==> k in filled && filled[k] == standings[k]
      ensures forall k :: k in filled && k !in standings ==> 1 <= k <= 10 && filled[k] == 0
      ensures |key| == 10
      ensures forall j :: 0 <= j < 10 ==> key[j] == filled[j + 1]
    {
      filled := standings;
      for i := 1 to 11
        invariant forall k :: 1 <= k < i ==> k in filled
        invariant forall k :: k in standings ==> k in filled && filled[k] == standings[k]
        invariant forall k :: k in filled && k !in standings ==> 1 <= k < i && filled[k] == 0
      {
        if i !in filled || filled[i] == 0 {
          filled := filled[i := 0];
        }
      }
      key := seq(10, j requires 0 <= j < 10 => filled[j + 1]);
    }
  }
}
