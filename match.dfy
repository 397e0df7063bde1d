/** Match records (leagueprobs/match.py). */
module Matches {
  import opened Wrappers

  /**
   * One fixture between two named teams in a given week. `result` is None when the
   * match has no result yet; Python's falsy results (None, an empty tuple or list)
   * all map to None, and a two-score result is always truthy.
   */
  datatype Match = Match(teams: (string, string), week: int, result: Option<(int, int)>)

  /** The winning team's name; a tie in score goes to the second team. */
  function Winner(m: Match): (w: Option<string>)
    ensures w.None? <==> m.result.None?
    ensures w.Some? ==> w.value == m.teams.0 || w.value == m.teams.1
  {
    if m.result.None? then None
    else if m.result.value.0 > m.result.value.1 then Some(m.teams.0)
    else Some(m.teams.1)
  }

  /** The losing team's name; a tie in score makes the first team the loser. */
  function Loser(m: Match): (l: Option<string>)
    ensures l.None? <==> m.result.None?
    ensures l.Some? ==> l.value == m.teams.0 || l.value == m.teams.1
  {
    if m.result.None? then None
    else if m.result.value.0 > m.result.value.1 then Some(m.teams.1)
    else Some(m.teams.0)
  }

  /** The higher first score makes the first team the winner, anything else the second. */
  lemma WinnerByScore(m: Match)
    requires m.result.Some?
    ensures m.result.value.0 > m.result.value.1 ==>
              Winner(m) == Some(m.teams.0) && Loser(m) == Some(m.teams.1)
    ensures m.result.value.0 <= m.result.value.1 ==>
              Winner(m) == Some(m.teams.1) && Loser(m) == Some(m.teams.0)
  {
  }

  /** A played match's winner and loser are its two teams, distinct when the teams are. */
  lemma WinnerAndLoserAreTheTeams(m: Match)
    requires m.result.Some?
    ensures Winner(m).Some? && Loser(m).Some?
    ensures multiset{Winner(m).value, Loser(m).value} == multiset{m.teams.0, m.teams.1}
    ensures Winner(m) != Loser(m) <==> m.teams.0 != m.teams.1
  {
  }
}
