# LeagueProb in Dafny

LeagueProb computes the odds of each team's final standing in a League of Legends league by brute force.
- Every match that has not been played yet is given a win for one side or the other.
- Each of the 2^n resulting scenarios is turned into a league.
- Each league's standings are ranked and tiebroken.
- For each scenario, the program counts which rank each team finishes at.
- The counts are then folded into one aggregate per team and rank.

This project models that ranking and tallying core and proves properties of it.

## Modules

- `Matches` (match.dfy): a match, and its winner and loser.
- `Teams` (teams.dfy): a team's wins, its head-to-head wins against a list of opponents, and its wins after week 4.
- `LeagueTable` (league.dfy): the league of `league.py`. It covers:
  - grouping a flat match list into teams in first-appearance order;
  - the stable table sorted by descending wins;
  - the standings that map each rank to one name;
  - the in-place "put this team at rank r" update, in class `League`.
- `Standings` and `Placing` (standings.dfy, placing.dfy): the bucketed standings of `leagues.py`. A rank maps to a list of names. This part has:
  - `teams_by_wins`, `place_teams` (competition ranking) and `place_teams_lcs`, as functions on values;
  - the loops that implement them;
  - `reset_standing_for_team`, as a function.
- `Leagues` (leagues.dfy): the class `League` with its `teams` and `standings` fields. It holds:
  - the LEC head-to-head and second-half passes;
  - the LEC tiebreaker;
  - the LCS three-way head-to-head pass.

  Each pass reads a snapshot of the standings and applies moves to the live standings. The model states its effect as a list of (team, rank) moves applied to the snapshot.
- `Outcomes` and `Possibility` (outcomes.dfy, possibility.dfy): the scenario engine. It covers:
  - splitting the matches into finished and upcoming ones;
  - enumerating {0,1}^n;
  - writing an outcome vector into a copy of the upcoming matches, in place;
  - the per-scenario tally;
  - folding the tallies into the handler's `cumulatedOutcomes`;
  - the `sort_result` key.
- `OrderedDicts`, `Sorting` and `Wrappers`: the supporting definitions.
  - A Python dict is an insertion-ordered sequence of key/value pairs. Insertion order matters to the table and to "the first bucket containing the team".
  - `Sorting` is a stable descending sort.
  - `Wrappers` holds `Option`.

## Modelling choices

- Python dicts whose order matters are `Dict<K, V> = seq<(K, V)>` with `Keys`, `Get`, `Put` and `Del`. Dicts whose order is never observed (the tallies) are Dafny `map`s.
- A falsy match result is `None`. A two-score result is always `Some`.
- Equal scores make the second team the winner, as the code does.
- `leagues.py` calls several members that do not exist as it calls them. The model uses the definitions they evidently refer to:
  - `teams_by_wins` and `set_standing_for_team` exist only as comments. Their commented bodies are the semantics (`Placing.TeamsByWins`, `Leagues.League.SetStandingForTeam`).
  - `get_head_to_head_wins` is called with a list of team names. It is modelled as `head_to_head_wins` over opponent names, because only `.name` of an opponent is read.
- `possibility.py` calls `make_tiebreaker`, which nothing defines. The scenario model takes the standings producer as a parameter, `Possibility.Resolver`.
- The aggregator adds 1 per (team, rank) key rather than the key's count, as the code does (possibility.py:177).
- Facts about the code that the model keeps as they are:
  - The table sorts by wins only, with no second key (league.py:53-56).
  - `make_standings` gives each rank exactly one name, so tied teams are not grouped (league.py:67-70).
  - The second half starts after week 4, a fixed literal (teams.py:55); the model names it `Teams.SecondHalfAfterWeek`.
  - Equal scores make the second team the winner (match.py:44-45).

## Model

| member | source | states |
|---|---|---|
| Matches.Winner | leagueprobs/match.py:28-45 | The winner is None exactly when the result is absent; otherwise it is one of the two teams. |
| Matches.Loser | leagueprobs/match.py:47-64 | The loser is None exactly when the result is absent; otherwise it is one of the two teams. |
| Matches.WinnerByScore | leagueprobs/match.py:42-45 | A higher first score gives winner teams[0] and loser teams[1]. Any other played score, ties included, gives winner teams[1] and loser teams[0]. |
| Matches.WinnerAndLoserAreTheTeams | leagueprobs/match.py:42-45 | For a played match, {winner, loser} is {teams[0], teams[1]} as a multiset. They differ exactly when the two teams differ. |
| Teams.CountWins | leagueprobs/teams.py:15-19 | A team's wins never exceed its number of matches. |
| Teams.WinsAtMostPlayed | leagueprobs/teams.py:19 | Unplayed matches contribute nothing: wins are at most the number of played matches. |
| Teams.CountWinsConcat | leagueprobs/teams.py:19 | Wins over a concatenation are the sum of the wins over the parts. |
| Teams.HeadToHeadWins | leagueprobs/teams.py:21-45 | The counter loop returns the sum over opponents of the team's won matches against that opponent (`WinsAgainst`). |
| Teams.CountMatchupWins | leagueprobs/teams.py:42-44 | The inner loop counts the won matches among one opponent's matchups. |
| Teams.NoWinsInNothing | leagueprobs/teams.py:31-45 | A team with no matches has no head-to-head wins, whatever the opponents. |
| Teams.WinsAgainstConcat | leagueprobs/teams.py:36-44 | Head-to-head wins are additive over the opponent list, so a duplicated opponent counts twice. |
| Teams.WinsAgainstSnoc | leagueprobs/teams.py:36-44 | One more match adds exactly its hits against the opponent list. |
| Teams.NoHits | leagueprobs/teams.py:40 | A match naming none of the opponents adds no head-to-head win. |
| Teams.HitsAtMostOne | leagueprobs/teams.py:36-44 | With distinct opponents that exclude the team itself, one match adds at most one head-to-head win, and only if the team won it. |
| Teams.WinsAgainstAtMostWins | leagueprobs/teams.py:36-44 | With distinct opponents that exclude the team itself, head-to-head wins are at most total wins. |
| Teams.WinsInSecondHalf | leagueprobs/teams.py:47-62 | The counter loop returns the wins among played matches after week 4. |
| Teams.SecondHalfAtMostWins | leagueprobs/teams.py:52-61 | Second-half wins are at most total wins. |
| Teams.SecondHalfIgnoresFirstHalf | leagueprobs/teams.py:55 | Changing only the matches of week 4 or earlier changes neither the second-half matches nor the second-half wins. |
| LeagueTable.Names | leagueprobs/league.py:52 | The names are the teams' names, position by position. |
| LeagueTable.WinsByNameKeys | leagueprobs/league.py:52 | The name→wins dict has one key per distinct team name, in first-appearance order. |
| LeagueTable.WinsByNameLast | leagueprobs/league.py:52 | A name that appears more than once keeps the wins of its last team. |
| LeagueTable.WinsByNameDistinct | leagueprobs/league.py:52 | With distinct names, the dict is the teams' (name, wins) items in order. |
| LeagueTable.Table | leagueprobs/league.py:42-56 | The table is sorted by non-increasing wins and is a permutation of the name→wins items. It is stable: the teams with any given win count keep their dict order. |
| LeagueTable.TableKeys | leagueprobs/league.py:52-56 | The table's keys are exactly the distinct team names, each exactly once. |
| LeagueTable.RankedGet | leagueprobs/league.py:67-70 | Zipping ranks from `first` with names maps rank r to the (r-first)-th name inside the range, and to nothing outside it. |
| LeagueTable.RankedShape | leagueprobs/league.py:67-70 | The zipped standings have unique ranks, and their values are the names in order. |
| LeagueTable.MakeStandingsSpec | leagueprobs/league.py:58-73 | The standings have keys exactly 1..\|table\|, and rank i holds the i-th table name (ties are not grouped). Ranks are unique, and the values are a permutation of the distinct team names. |
| LeagueTable.MakeStandingsRanks | leagueprobs/league.py:67-70 | The rank half of MakeStandingsSpec. |
| LeagueTable.MakeStandingsNames | leagueprobs/league.py:67-70 | The name half of MakeStandingsSpec: unique keys, and values that are a permutation of the team names. |
| LeagueTable.GetDictKey | leagueprobs/league.py:127-130 | A key is found exactly when the value occurs in the dict, and the found pair is in the dict. Otherwise the result is None. |
| LeagueTable.GetDictKeyFirst | leagueprobs/league.py:127-130 | The key found is the key of the first entry holding the value. |
| LeagueTable.MovedTo | leagueprobs/league.py:75-89 | Afterwards rank r holds the team. The first key that held it is removed, and any team at r is overwritten. Every other key is unchanged, and keys stay unique. |
| LeagueTable.League.constructor | leagueprobs/league.py:13-31 | The league keeps its teams, and its standings are `make_standings` of them. |
| LeagueTable.League.SetStandingForTeam | leagueprobs/league.py:75-89 | The in-place update leaves the standings equal to MovedTo of the old standings, and the teams unchanged. |
| LeagueTable.GetLeagueFromMatches | leagueprobs/league.py:96-124 | The grouping loop builds the league whose teams are `LeagueTeams(matches)` and whose standings are `make_standings` of them. |
| LeagueTable.GroupedStep | leagueprobs/league.py:115-120 | One more (name, match) either appends the match to the existing team or adds a new team with that single match at the end. |
| LeagueTable.CollectOccurrences | leagueprobs/league.py:110-122 | When no match pits a team against itself, each team's matches are exactly the input matches naming it, in input order. |
| LeagueTable.OccurrenceNames | leagueprobs/league.py:113 | A name becomes a team exactly when some match names it. |
| LeagueTable.LeagueTeamsSpec | leagueprobs/league.py:110-122 | The team list follows the names' first appearance and the names are distinct. A name is a team exactly when some match names it. With no self-matches, each team holds exactly the matches naming it. |
| Sorting.Insert | leagueprobs/league.py:53-56 | Inserting into a descending sequence keeps it sorted and is a permutation of the element plus the sequence. |
| Sorting.InsertWithKey | leagueprobs/league.py:55 | Insertion keeps the relative order of the elements with any given key (stability). |
| Sorting.SortDesc | leagueprobs/league.py:53-56 | The sort is descending, a permutation of its input, and stable for every key value. |
| Sorting.SortedDescFirst | leagueprobs/league.py:53-56 | The first element of a descending sequence has the largest key. |
| Placing.ByWins | leagueprobs/leagues.py:49-57 | `teams_by_wins` is computed as a function on values. ByWinsShape, ByWinsGet and ByWinsTeams state its properties. |
| Placing.ByWinsShape | leagueprobs/leagues.py:49-57 | The score→teams dict has unique scores and no empty list. |
| Placing.ByWinsGet | leagueprobs/leagues.py:52-55 | The list at score w is the teams with score w in input order. It is absent when there are none. |
| Placing.ByWinsTeams | leagueprobs/leagues.py:52-55 | Every input team appears exactly once across the lists. |
| Placing.TeamsByWins | leagueprobs/leagues.py:49-57 | The loop computes ByWins of its input pairs. |
| Placing.PlaceTeams | leagueprobs/leagues.py:22-31 | The loop computes PlaceGroups over the score groups in descending score order. |
| Placing.PlaceGroup | leagueprobs/leagues.py:27-31 | The inner loop appends the group's teams at one place, and the next place grows by the group's size. |
| Placing.PlaceTeamsRanking | leagueprobs/leagues.py:22-31 | Starting from an empty output, place_teams is exactly the competition ranking of the score groups. |
| Placing.RankingAt | leagueprobs/leagues.py:24-31 | Group g is placed at n plus the sizes of the groups above it (ranks 1,1,3), with its teams in their own order. |
| Placing.RankingLength | leagueprobs/leagues.py:24-31 | The ranking has one place per score group. |
| Placing.RankingTeams | leagueprobs/leagues.py:25-31 | Read in order, the ranking's teams are the groups' teams: nothing is lost, duplicated or reordered. |
| Placing.PlaceTeamsSpec | leagueprobs/leagues.py:22-31 | place_teams has one place per group and places every team exactly once, in competition-ranking shape. With next_place 0, the top group is at place 0. |
| Placing.PlaceTeamsLcs | leagueprobs/leagues.py:196-210 | The loop computes PlaceLcsGroups over the score groups in descending order. |
| Placing.LcsDecisive | leagueprobs/leagues.py:204-206 | In the decisive case (3-way tie with 4 wins, or a 2-way tie), place_teams_lcs appends like place_teams. |
| Placing.LcsTwoIsPlaceTeams | leagueprobs/leagues.py:196-206 | With a 2-way tie, place_teams_lcs equals place_teams. |
| Placing.LcsAttach | leagueprobs/leagues.py:207-208 | In a 3-way tie, a non-4-win group met after the first place appends all its teams at the current place without advancing it. |
| Placing.LcsTopFour | leagueprobs/leagues.py:199-210 | In a 3-way tie whose top group has 4 wins, that group gets offset 0 and every other team gets offset \|top\|. |
| Placing.LcsNoFour | leagueprobs/leagues.py:207-210 | In a 3-way tie with no 4-win group from next_place 0, nothing is placed. Only an empty list is created at place 0. |
| Standings.AddToBucket | leagueprobs/leagues.py:63-66 | The commented `set_standing_for_team` appends the team to rank k's list, creating it if needed. Every other rank is unchanged, and no list becomes empty. |
| Standings.AddToBucketTeams | leagueprobs/leagues.py:63-66 | The team multiset grows by exactly the added team. |
| Standings.RemoveFirst | leagueprobs/leagues.py:71-72 | `list.index` and `pop` remove exactly one occurrence of the team. |
| Standings.FirstWith | leagueprobs/leagues.py:69-70 | The first bucket containing the team is found exactly when the team is in the standings. |
| Standings.ResetTeams | leagueprobs/leagues.py:68-75 | Removing a team takes exactly one occurrence of it out of the standings. |
| Standings.ResetAbsent | leagueprobs/leagues.py:68-75 | Resetting an absent team changes nothing. |
| Standings.ResetGet | leagueprobs/leagues.py:68-75 | Only the first bucket containing the team changes: it loses one occurrence and is deleted when it becomes empty. |
| Standings.ResetShape | leagueprobs/leagues.py:73-74 | Resetting adds no rank, keeps ranks unique, and leaves no empty bucket. |
| Standings.ResetAt | leagueprobs/leagues.py:68-75 | With the team first found in bucket i, that bucket's list loses the first occurrence, or the bucket is deleted. |
| Standings.MoveKeepsPartition | leagueprobs/leagues.py:130-131 | Reset followed by set keeps the same team multiset, unique ranks, non-empty buckets and the partition invariant. |
| Standings.MoveGet | leagueprobs/leagues.py:130-131 | After a move, the team is last in rank r's list, and all ranks other than r and its old one are unchanged. |
| Leagues.ApplyMovesKeepsPartition | leagueprobs/leagues.py:126-131 | Any sequence of moves of the standings' own teams keeps the team multiset and the partition. |
| Leagues.Without | leagueprobs/leagues.py:119-120 | `teams_copy.pop(i)` leaves the bucket minus exactly its i-th team. |
| Leagues.IndexOf | leagueprobs/leagues.py:71 | `list.index` finds the first position of the team. |
| Leagues.PassKeepsPartition | leagueprobs/leagues.py:113-151 | A whole tiebreak pass keeps the team multiset and the partition of the standings. |
| Leagues.LecOffsets | leagueprobs/leagues.py:113-151 | An LEC pass sends every move of a bucket at `standing` to a rank in standing+1 .. standing+\|bucket\|-1. |
| Leagues.LecMoves | leagueprobs/leagues.py:113-151 | In a bucket of more than one team, the best score group keeps its rank and makes no move. Every other team of the bucket moves exactly once: the moved teams are the bucket minus the best group. A team of group g goes to standing plus the number of teams in the groups above it. |
| Leagues.PlacingMovesKeys | leagueprobs/leagues.py:126-131 | With placing 0 first and non-zero placings after it, the moved teams are exactly those of the later placings, in order. |
| Leagues.PlacingMovesTo | leagueprobs/leagues.py:126-131 | Every team of a non-zero placing is moved to standing + placing. |
| Leagues.LcsOnlyTriples | leagueprobs/leagues.py:178-179 | The LCS pass makes no move when no bucket has exactly 3 teams. |
| Leagues.LcsNoFourNoMoves | leagueprobs/leagues.py:199-210 | A 3-team bucket with no 4-win team is left as it is. |
| Leagues.LcsTopFourMoves | leagueprobs/leagues.py:174-210 | In a 3-team bucket with a 4-win top group, the other teams move to standing+\|top\| and the top group stays. |
| Leagues.LcsTopFourPlacement | leagueprobs/leagues.py:186-188 | In that case, the LCS placing is [(0, top)] followed by the rest at offset \|top\|. |
| Leagues.LecKeepsPartition | leagueprobs/leagues.py:106-110 | The LEC tiebreaker keeps the team multiset and the partition. |
| Leagues.League.ResetStandingForTeam | leagueprobs/leagues.py:68-75 | The in-place pop and delete leave the standings equal to ResetStanding of the old standings. |
| Leagues.League.SetStandingForTeam | leagueprobs/leagues.py:63-66 | Setting leaves the standings equal to AddToBucket of the old standings. |
| Leagues.League.TeamScores | leagueprobs/leagues.py:118-121 | The loop builds (team, score against the rest of the bucket) for every team of the bucket, in order. |
| Leagues.League.TeamScore | leagueprobs/leagues.py:119-121 | The score is the rule's count against the bucket without that team (the same lookup serves the second-half pass at leagues.py:141 and the LCS pass at leagues.py:180-184). |
| Leagues.League.MoveTeam | leagueprobs/leagues.py:130-131 | Reset then set leaves the standings equal to Move of the old ones. |
| Leagues.League.MoveGroup | leagueprobs/leagues.py:127-131 | One placing group applies its moves in order. Placing 0 moves nothing. |
| Leagues.League.MovePlacing | leagueprobs/leagues.py:126-131 | The placing loop applies PlacingMoves in order. |
| Leagues.League.TiebreakPass | leagueprobs/leagues.py:113-131 | A pass over the deep-copied snapshot leaves the standings equal to Pass of the old standings. |
| Leagues.League.LecHeadToHeadPass | leagueprobs/leagues.py:113-131 | The LEC head-to-head pass is Pass with the head-to-head rule. |
| Leagues.League.LecSecondHalfPass | leagueprobs/leagues.py:133-151 | The LEC second-half pass is Pass with the second-half-wins rule. |
| Leagues.League.LecTiebreaker | leagueprobs/leagues.py:106-110 | The head-to-head pass runs to completion, then the second-half pass runs on its result. |
| Leagues.League.LcsTiebreaker | leagueprobs/leagues.py:169-194 | The LCS tiebreaker is the LCS head-to-head pass. |
| Outcomes.SplitMembers | leagueprobs/possibility.py:29-30 | A match is finished exactly when it is in the matches and has a result, and upcoming exactly when it has none. |
| Outcomes.SplitConcat | leagueprobs/possibility.py:29-30 | Both splits keep the original order (they distribute over concatenation). |
| Outcomes.SplitPartition | leagueprobs/possibility.py:29-30 | Together the two splits hold every match exactly once. |
| Outcomes.ProductShape | leagueprobs/possibility.py:54 | Every enumerated vector has length n, with entries in {0,1}. |
| Outcomes.ProductValue | leagueprobs/possibility.py:54 | Vector k read as a binary number is k (itertools.product order). |
| Outcomes.ProductDistinct | leagueprobs/possibility.py:54-55 | The 2^n vectors are pairwise distinct. |
| Outcomes.ProductComplete | leagueprobs/possibility.py:54 | Every 0/1 vector of length n is enumerated, at the index of its binary value. |
| Outcomes.WithOutcome | leagueprobs/possibility.py:116 | Bit 1 gives result (1,0), so the winner is teams[0]; any other bit gives (0,1), so the winner is teams[1]. Teams and week are unchanged. |
| Outcomes.WithOutcomes | leagueprobs/possibility.py:112-116 | Match i gets the outcome of bit i. |
| Outcomes.ScenarioAllPlayed | leagueprobs/possibility.py:78-86 | A scenario's matches (finished + played-out upcoming) have no upcoming match left. |
| Outcomes.Bump | leagueprobs/possibility.py:136-141 | One more count for (team, rank), and every other count is unchanged. |
| Outcomes.TallyCount | leagueprobs/possibility.py:133-141 | A scenario's tally of (team, rank) is the number of times the team appears in that rank's bucket. |
| Outcomes.TallyKeys | leagueprobs/possibility.py:133-141 | A team is in the tally exactly when it is in the standings, and a rank is recorded for it exactly when the team is listed there. |
| Outcomes.ListedOnce | leagueprobs/possibility.py:133-141 | A team listed at most once is counted once at its first bucket's rank and nowhere else. |
| Outcomes.TallyOfPartition | leagueprobs/possibility.py:133-141 | For partitioned standings, every team's tally is exactly {its rank: 1}. |
| Outcomes.AddRanks | leagueprobs/possibility.py:174-177 | Each rank key of the queued tally adds 1 and creates missing ranks at 0 first. Every other count is kept. |
| Outcomes.AggregateCount | leagueprobs/possibility.py:171-177 | The aggregate at (team, rank) is the start plus the number of queued tallies holding that key (adding 1, not the amount). |
| Outcomes.AggregateKeys | leagueprobs/possibility.py:171-177 | The aggregate mentions a team, or a (team, rank) key, exactly when the start or some queued tally does. |
| Outcomes.HitsPermutation | leagueprobs/possibility.py:160-177 | The count of tallies holding a key does not depend on their order. |
| Outcomes.AggregatePermutation | leagueprobs/possibility.py:160-177 | The aggregate does not depend on the order in which the tallies are folded. |
| Outcomes.AggregateFinishes | leagueprobs/possibility.py:171-177 | Over partitioned scenarios, the aggregate at (team, rank) is the number of scenarios in which the team finishes at that rank. |
| Outcomes.RankTotalAddOne | leagueprobs/possibility.py:174-177 | Adding 1 at one rank raises the total over a list of ranks by the number of times that rank is listed. |
| Outcomes.AggregateTotal | leagueprobs/possibility.py:133-177 | When every scenario's standings are a partition listing the team, the team's aggregate counts, summed over a list of distinct ranks that holds all its ranks, equal the number of scenarios: none is lost or counted twice. |
| Possibility.Scenarios | leagueprobs/possibility.py:54-55 | There are exactly 2^\|upcoming\| scenarios. |
| Possibility.ScenarioTotals | leagueprobs/possibility.py:51-64 | When the resolver partitions the teams and lists the team in every scenario, the team's counts over all enumerated scenarios add up to exactly 2^\|upcoming\|. |
| Possibility.PossibilityHandler.constructor | leagueprobs/possibility.py:20-34 | The handler holds the matches, their finished and upcoming splits, no cumulated outcomes, and the playoff count. |
| Possibility.PossibilityHandler.MultiprocessPossibilities | leagueprobs/possibility.py:51-64 | The cumulated outcomes become the fold of one tally per enumerated scenario, in enumeration order, over the old cumulated outcomes. |
| Possibility.PossibilityHandler.MapPossibilities | leagueprobs/possibility.py:54-61 | The queue holds each scenario's tally, in enumeration order. |
| Possibility.PossibilityHandler.GetPossibilities | leagueprobs/possibility.py:66-90 | The tally is that of the resolved standings of the league generated from finished + played-out upcoming matches. The handler, upcoming matches included, is not modified (deep copy). |
| Possibility.PossibilityHandler.SetUpcomingMatchesOutcomes | leagueprobs/possibility.py:100-116 | The array is overwritten in place with WithOutcomes of its old contents. |
| Possibility.PossibilityHandler.CumulateOutcome | leagueprobs/possibility.py:118-144 | The nested loops build exactly the scenario's tally (TallyOf). |
| Possibility.PossibilityHandler.CumulateBucket | leagueprobs/possibility.py:135-141 | The inner loop counts one bucket's teams at its rank. |
| Possibility.PossibilityHandler.CumulateTeamOutcome | leagueprobs/possibility.py:136-141 | The loop body performs Bump. |
| Possibility.PossibilityHandler.CumulateResults | leagueprobs/possibility.py:146-177 | The cumulated outcomes become Aggregate of the old ones with the queue folded in. |
| Possibility.PossibilityHandler.CumulateTally | leagueprobs/possibility.py:171-177 | One queued tally, team by team in any order, gives AddTally. |
| Possibility.PossibilityHandler.CumulateTeam | leagueprobs/possibility.py:172-177 | One team's entry becomes AddRanks of its old ranks with the tally's rank keys. |
| Possibility.PossibilityHandler.CumulateRanks | leagueprobs/possibility.py:174-177 | The innermost loop, over the rank keys in any order, gives AddRanks. |
| Possibility.PossibilityHandler.SortResult | leagueprobs/possibility.py:227-233 | Ranks 1..10 are present afterwards, with missing ranks filled with 0 and all other entries unchanged. The key is the ten counts at ranks 1..10. |

## Left out

- `get_matches_from_json` (match.py:67-81) and data.py: file, HTTP and JSON I/O. The matches are a parameter of the handler's constructor.
- Multiprocessing in `multiprocess_possibilities` and `_cumulate_results` (`Manager`, `Queue`, `Pool.map_async`, `time.sleep(10)`, the poll-until-empty loop): concurrency. The queue hand-off is a sequence of tallies produced in enumeration order and folded in that order. AggregatePermutation shows that any other arrival order gives the same aggregate. A tally the poll loop misses by stopping early is not modelled.
- `run`, `create_output` and `templates.py`: timing, floating-point percentages, `round`, Markdown formatting and the output file.
- `investigate_specific_scenario`: file and JSON output.
- The league's identity (`name.upper()`, `season.lower().capitalize()` and `year`, league.py:22-25), path and URL construction, the class constants of LEC and LCS, `__str__`/`__repr__` and loguru logging: they feed only output and logging, never the standings.
- `League.tiebreaker` in league.py: it only raises NotImplementedError.
- `make_tiebreaker`: nothing defines it, so the scenario model takes the standings producer as a `Resolver` parameter. No property of the resolved standings is assumed except where a lemma states Partition as a hypothesis (AggregateFinishes).
- Leagues.League.TiebreakPass: requires every standing team to be a key of `teams`. The source raises KeyError at `self.teams[team]` otherwise, and that error path is not modelled. The same requirement is on LecHeadToHeadPass, LecSecondHalfPass, LecTiebreaker, LcsTiebreaker and TeamScores.
- Leagues.League.TeamScores: calls with a list of names, as leagues.py does. `head_to_head_wins` as written reads `.name` of each opponent, which a plain name does not have. The model reads the name itself.
- LeagueTable.SetStandingForTeam: keeps the rank→name dict's ranks unique as a precondition (`Valid`). Every dict the source builds has unique keys.
- Possibility.PossibilityHandler.SortResult: returns the zero-filled map instead of writing into `item[1]` in place. The new map is stated in full, but the aliasing with the handler's `cumulatedOutcomes` is not modelled.
- Possibility.PossibilityHandler.CumulateTally: Python iterates `result.items()` in insertion order, while the model takes the tally's teams and ranks in an arbitrary order. The result is proved not to depend on that order.
- Numbers are unbounded integers. Python integers do not overflow, so no width is modelled.
