/**
 * A league with one team name per rank (leagueprobs/league.py): the table of
 * wins, the rank -> name standings built from it, moving a team to a rank,
 * and grouping a flat match list into teams.
 */
module LeagueTable {
  import opened Wrappers
  import opened OrderedDicts
  import opened Sorting
  import opened Matches
  import opened Teams

  /** Team names, in list order. */
  function Names(teams: seq<Team>): (ns: seq<string>)
    ensures |ns| == |teams|
    ensures forall i :: 0 <= i < |teams| ==> ns[i] == teams[i].name
  {
    if teams == [] then [] else Names(teams[..|teams| - 1]) + [teams[|teams| - 1].name]
  }

  /** The set of distinct team names. */
  function NameSet(teams: seq<Team>): set<string>
  {
    set t | t in teams :: t.name
  }

  /** `{team.name: team.wins for team in teams}`: a later team with the same name overwrites the wins. */
  function WinsByName(teams: seq<Team>): Dict<string, int>
  {
    if teams == [] then []
    else Put(WinsByName(teams[..|teams| - 1]), teams[|teams| - 1].name, Wins(teams[|teams| - 1]))
  }

  lemma KeysUpdate<V>(d: Dict<string, V>, i: nat, v: V)
    requires i < |d|
    ensures Keys(d[i := (d[i].0, v)]) == Keys(d)
  {
    var d' := d[i := (d[i].0, v)];
    forall j | 0 <= j < |d| ensures Keys(d')[j] == Keys(d)[j] {
      assert d'[j].0 == d[j].0;
    }
  }

  /** Assigning a key keeps the key order, or appends the key when it is new. */
  lemma PutKeys<V>(d: Dict<string, V>, k: string, v: V)
    requires KeysUnique(d)
    ensures Keys(Put(d, k, v)) == if k in Keys(d) then Keys(d) else Keys(d) + [k]
  {
    if k in Keys(d) {
      var i :| 0 <= i < |d| && Keys(d)[i] == k;
      PutPresent(d, i, v);
      KeysUpdate(d, i, v);
    } else {
      PutAbsent(d, k, v);
      KeysConcat(d, [(k, v)]);
    }
  }

  /** The comprehension's keys are the team names in order of first appearance, each once. */
  lemma {:induction false} WinsByNameKeys(teams: seq<Team>)
    ensures KeysUnique(WinsByName(teams))
    ensures Keys(WinsByName(teams)) == FirstAppearance(Names(teams))
  {
    if teams != [] {
      var init := teams[..|teams| - 1];
      WinsByNameKeys(init);
      assert Names(teams)[..|teams| - 1] == Names(init);
      PutKeys(WinsByName(init), teams[|teams| - 1].name, Wins(teams[|teams| - 1]));
      PutUnique(WinsByName(init), teams[|teams| - 1].name, Wins(teams[|teams| - 1]));
    }
  }

  /** A name's entry holds the wins of the last team carrying that name. */
  lemma {:induction false} WinsByNameLast(teams: seq<Team>, i: nat)
    requires i < |teams|
    requires forall j :: i < j < |teams| ==> teams[j].name != teams[i].name
    ensures Get(WinsByName(teams), teams[i].name) == Some(Wins(teams[i]))
  {
    if i < |teams| - 1 {
      var init := teams[..|teams| - 1];
      WinsByNameLast(init, i);
    }
  }

  /** Each team's name paired with its wins, in list order. */
  function Items(teams: seq<Team>): (items: Dict<string, int>)
    ensures |items| == |teams|
    ensures forall i :: 0 <= i < |teams| ==> items[i] == (teams[i].name, Wins(teams[i]))
  {
    seq(|teams|, i requires 0 <= i < |teams| => (teams[i].name, Wins(teams[i])))
  }

  lemma ItemsSnoc(teams: seq<Team>)
    requires teams != []
    ensures Items(teams) == Items(teams[..|teams| - 1]) + [(teams[|teams| - 1].name, Wins(teams[|teams| - 1]))]
  {
    var init := teams[..|teams| - 1];
    var r := Items(init) + [(teams[|teams| - 1].name, Wins(teams[|teams| - 1]))];
    forall i | 0 <= i < |teams| ensures Items(teams)[i] == r[i] {
      if i < |init| {
        assert init[i] == teams[i];
      }
    }
    SameAt(Items(teams), r);
  }

  /** With distinct names, the comprehension lists every team, in list order. */
  lemma {:induction false} WinsByNameDistinct(teams: seq<Team>)
    requires forall i, j :: 0 <= i < j < |teams| ==> teams[i].name != teams[j].name
    ensures WinsByName(teams) == Items(teams)
  {
    if teams != [] {
      var init := teams[..|teams| - 1];
      var last := teams[|teams| - 1];
      assert WinsByName(init) == Items(init) by {
        assert forall i, j :: 0 <= i < j < |init| ==> init[i].name != init[j].name by {
          forall i, j | 0 <= i < j < |init| ensures init[i].name != init[j].name {
            assert init[i] == teams[i] && init[j] == teams[j];
          }
        }
        WinsByNameDistinct(init);
      }
      assert last.name !in Keys(Items(init)) by {
        forall k | 0 <= k < |init| ensures Keys(Items(init))[k] != last.name {
          assert init[k] == teams[k];
        }
      }
      PutAbsent(Items(init), last.name, Wins(last));
      ItemsSnoc(teams);
    }
  }

  /** The sort key of a table item: its wins. */
  function WinsOf(item: (string, int)): int
  {
    item.1
  }

  /**
   * `League.table`: the name -> wins items sorted by descending wins, stably,
   * so equal wins keep the order of the unsorted comprehension.
   */
  function Table(teams: seq<Team>): (table: Dict<string, int>)
    ensures SortedDesc(table, WinsOf)
    ensures multiset(table) == multiset(WinsByName(teams))
    ensures forall w :: WithKey(table, WinsOf, w) == WithKey(WinsByName(teams), WinsOf, w)
  {
    SortDesc(WinsByName(teams), WinsOf)
  }

  /** Each distinct name once, in first-appearance order. */
  lemma NamesOnce(teams: seq<Team>)
    ensures multiset(FirstAppearance(Names(teams))) == multiset(NameSet(teams))
  {
    var order := FirstAppearance(Names(teams));
    DistinctMultiset(order);
    forall x ensures x in order <==> x in NameSet(teams) {
      if x in NameSet(teams) {
        var tm :| tm in teams && tm.name == x;
        var i :| 0 <= i < |teams| && teams[i] == tm;
        assert Names(teams)[i] == x;
      }
    }
    assert (set x | x in order) == NameSet(teams);
  }

  /**
   * The table has exactly one key per distinct team name, so rebuilding a dict
   * from the sorted items loses nothing.
   */
  lemma TableKeys(teams: seq<Team>)
    ensures multiset(Keys(Table(teams))) == multiset(NameSet(teams))
    ensures KeysUnique(Table(teams))
  {
    var t := Table(teams);
    WinsByNameKeys(teams);
    KeysPermutation(t, WinsByName(teams));
    NamesOnce(teams);
    KeysAtMostOnce(t);
  }

  /** `zip(range(first, ...), names)` as a dict. */
  function Ranked(names: seq<string>, first: int): (st: Dict<int, string>)
    ensures |st| == |names|
  {
    if names == [] then [] else [(first, names[0])] + Ranked(names[1..], first + 1)
  }

  /** The ranks are consecutive from `first`, and rank `r` holds name `r - first`. */
  lemma {:induction false} RankedGet(names: seq<string>, first: int, r: int)
    ensures Get(Ranked(names, first), r) == if first <= r < first + |names| then Some(names[r - first]) else None
  {
    if names != [] {
      RankedGet(names[1..], first + 1, r);
    }
  }

  lemma {:induction false} RankedShape(names: seq<string>, first: int)
    ensures KeysUnique(Ranked(names, first))
    ensures Values(Ranked(names, first)) == names
  {
    if names != [] {
      RankedShape(names[1..], first + 1);
      RankedGet(names[1..], first + 1, first);
      assert Ranked(names, first)[1..] == Ranked(names[1..], first + 1);
    }
  }

  /** `League.make_standings`: rank i + 1 holds the i-th table name. */
  function MakeStandings(teams: seq<Team>): Dict<int, string>
  {
    Ranked(Keys(Table(teams)), 1)
  }

  /**
   * The standings ranks are exactly 1..|table|, rank r holds the r-th table
   * name (ties are not grouped), and the names are the distinct team names,
   * each once.
   */
  lemma MakeStandingsSpec(teams: seq<Team>)
    ensures forall r :: Get(MakeStandings(teams), r).Some? <==> 1 <= r <= |Table(teams)|
    ensures forall r :: 1 <= r <= |Table(teams)| ==> Get(MakeStandings(teams), r) == Some(Table(teams)[r - 1].0)
    ensures KeysUnique(MakeStandings(teams))
    ensures multiset(Values(MakeStandings(teams))) == multiset(NameSet(teams))
  {
    MakeStandingsRanks(teams);
    MakeStandingsNames(teams);
  }

  lemma MakeStandingsRanks(teams: seq<Team>)
    ensures forall r :: Get(MakeStandings(teams), r).Some? <==> 1 <= r <= |Table(teams)|
    ensures forall r :: 1 <= r <= |Table(teams)| ==> Get(MakeStandings(teams), r) == Some(Table(teams)[r - 1].0)
  {
    var table := Table(teams);
    var names := Keys(table);
    RankedGetAll(names);
  }

  lemma MakeStandingsNames(teams: seq<Team>)
    ensures KeysUnique(MakeStandings(teams))
    ensures multiset(Values(MakeStandings(teams))) == multiset(NameSet(teams))
  {
    RankedShape(Keys(Table(teams)), 1);
    TableKeys(teams);
  }

  lemma MakeStandingsUnique(teams: seq<Team>)
    ensures KeysUnique(MakeStandings(teams))
  {
    MakeStandingsNames(teams);
  }

  lemma RankedGetAll(names: seq<string>)
    ensures forall r :: Get(Ranked(names, 1), r).Some? <==> 1 <= r <= |names|
    ensures forall r :: 1 <= r <= |names| ==> Get(Ranked(names, 1), r) == Some(names[r - 1])
  {
    forall r ensures Get(Ranked(names, 1), r) == if 1 <= r <= |names| then Some(names[r - 1]) else None {
      RankedGet(names, 1, r);
    }
  }

  /** `_get_dict_key`: the first key, in iteration order, whose value is `v`. */
  function GetDictKey<K, V(==)>(d: Dict<K, V>, v: V): (r: Option<K>)
    ensures r.Some? <==> v in Values(d)
    ensures r.Some? ==> (r.value, v) in d
  {
    if d == [] then None
    else if d[0].1 == v then Some(d[0].0)
    else
      assert Values(d) == [d[0].1] + Values(d[1..]);
      GetDictKey(d[1..], v)
  }

  /** The key `_get_dict_key` returns is the one at the first position holding the value. */
  lemma {:induction false} GetDictKeyFirst<K, V>(d: Dict<K, V>, v: V, i: nat)
    requires i < |d| && d[i].1 == v
    requires forall j :: 0 <= j < i ==> d[j].1 != v
    ensures GetDictKey(d, v) == Some(d[i].0)
  {
    if i > 0 {
      GetDictKeyFirst(d[1..], v, i - 1);
    }
  }

  /**
   * The standings after `_set_standing_for_team(name, r)`: rank r holds
   * `name`, the first rank that held `name` before is gone, and every other
   * rank is unchanged.
   */
  function MovedTo(st: Dict<int, string>, name: string, r: int): (st': Dict<int, string>)
    requires KeysUnique(st)
    ensures KeysUnique(st')
    ensures Get(st', r) == Some(name)
    ensures forall k :: k != r ==> Get(st', k) == if GetDictKey(st, name) == Some(k) then None else Get(st, k)
  {
    var cleared := match GetDictKey(st, name) case Some(k) => Del(st, k) case None => st;
    assert KeysUnique(cleared) && (GetDictKey(st, name).Some? ==> Get(cleared, GetDictKey(st, name).value) == None) by {
      if GetDictKey(st, name).Some? {
        DelUnique(st, GetDictKey(st, name).value);
      }
    }
    PutUnique(cleared, r, name);
    Put(cleared, r, name)
  }

  /** A league of league.py: its teams and its rank -> team name standings. */
  class League {
    var teams: seq<Team>
    var standings: Dict<int, string>

    /** A Python dict never repeats a key. */
    predicate Valid()
      reads this
    {
      KeysUnique(standings)
    }

    /** `League(name, year, season, teams)`: the standings are built from the table. */
    constructor (teams: seq<Team>)
      ensures Valid()
      ensures this.teams == teams
      ensures standings == MakeStandings(teams)
    {
      this.teams := teams;
      standings := MakeStandings(teams);
      MakeStandingsUnique(teams);
    }

    /** `_set_standing_for_team`: drop the team's first rank, then assign it rank `standing`. */
    method SetStandingForTeam(teamName: string, standing: int)
      requires Valid()
      modifies this
      ensures Valid()
      ensures teams == old(teams)
      ensures standings == MovedTo(old(standings), teamName, standing)
    {
      if teamName in Values(standings) {
        var key := GetDictKey(standings, teamName);
        DelUnique(standings, key.value);
        standings := Del(standings, key.value);
      }
      PutUnique(standings, standing, teamName);
      standings := Put(standings, standing, teamName);
    }
  }

  /** A match, once for each of its two team slots. */
  function Slots(m: Match): seq<(string, Match)>
  {
    [(m.teams.0, m), (m.teams.1, m)]
  }

  /** The (team name, match) pairs `get_league_from_matches` visits, in visiting order. */
  function Occurrences(ms: seq<Match>): seq<(string, Match)>
  {
    if ms == [] then [] else Occurrences(ms[..|ms| - 1]) + Slots(ms[|ms| - 1])
  }

  /** The matches of the visited pairs that belong to `name`, in visiting order. */
  function Collect(occ: seq<(string, Match)>, name: string): seq<Match>
  {
    if occ == [] then []
    else Collect(occ[..|occ| - 1], name) + (if occ[|occ| - 1].0 == name then [occ[|occ| - 1].1] else [])
  }

  /** The `league_teams` dict after visiting `occ`: first-appearance order, each name with its matches. */
  function Grouped(occ: seq<(string, Match)>): Dict<string, Team>
  {
    var order := FirstAppearance(Keys(occ));
    seq(|order|, k requires 0 <= k < |order| => (order[k], Team(order[k], Collect(occ, order[k]))))
  }

  /** The team list `get_league_from_matches` hands to the league. */
  function LeagueTeams(ms: seq<Match>): seq<Team>
  {
    Values(Grouped(Occurrences(ms)))
  }

  /** One loop step: create the team with this match, or append the match to it. */
  function AddMatch(d: Dict<string, Team>, name: string, m: Match): Dict<string, Team>
  {
    match Get(d, name)
    case None => Put(d, name, Team(name, [m]))
    case Some(t) => Put(d, name, Team(t.name, t.matches + [m]))
  }

  lemma {:induction false} CollectAbsent(occ: seq<(string, Match)>, name: string)
    requires name !in Keys(occ)
    ensures Collect(occ, name) == []
  {
    if occ != [] {
      assert Keys(occ[..|occ| - 1]) == Keys(occ)[..|occ| - 1];
      assert Keys(occ)[|occ| - 1] == occ[|occ| - 1].0;
      CollectAbsent(occ[..|occ| - 1], name);
    }
  }

  lemma GroupedKeys(occ: seq<(string, Match)>)
    ensures Keys(Grouped(occ)) == FirstAppearance(Keys(occ))
    ensures KeysUnique(Grouped(occ))
  {
    var g := Grouped(occ);
    assert Keys(g) == FirstAppearance(Keys(occ));
    KeysUniqueAt(g);
  }

  lemma CollectSnoc(occ: seq<(string, Match)>, name: string, m: Match, x: string)
    ensures Collect(occ + [(name, m)], x) == Collect(occ, x) + (if x == name then [m] else [])
  {
    assert (occ + [(name, m)])[..|occ|] == occ;
  }

  /** Visiting a pair of a known team appends the match to that team, in place. */
  lemma GroupedStepPresent(occ: seq<(string, Match)>, name: string, m: Match, i: nat)
    requires i < |FirstAppearance(Keys(occ))| && FirstAppearance(Keys(occ))[i] == name
    ensures Grouped(occ + [(name, m)]) == AddMatch(Grouped(occ), name, m)
  {
    var occ' := occ + [(name, m)];
    var d := Grouped(occ);
    var v := Team(name, Collect(occ, name) + [m]);
    var g' := Grouped(occ');
    assert FirstAppearance(Keys(occ')) == FirstAppearance(Keys(occ)) by {
      KeysConcat(occ, [(name, m)]);
      FirstAppearanceSnoc(Keys(occ), name);
    }
    assert AddMatch(d, name, m) == d[i := (name, v)] by {
      GroupedKeys(occ);
      GetAt(d, i);
      PutPresent(d, i, v);
    }
    assert g' == d[i := (name, v)] by {
      forall k | 0 <= k < |g'| ensures g'[k] == d[i := (name, v)][k] {
        GroupedPresentAt(occ, name, m, i, k);
      }
      SameAt(g', d[i := (name, v)]);
    }
  }

  lemma GroupedPresentAt(occ: seq<(string, Match)>, name: string, m: Match, i: nat, k: nat)
    requires i < |FirstAppearance(Keys(occ))| && FirstAppearance(Keys(occ))[i] == name
    requires FirstAppearance(Keys(occ + [(name, m)])) == FirstAppearance(Keys(occ))
    requires k < |FirstAppearance(Keys(occ))|
    ensures Grouped(occ + [(name, m)])[k] == Grouped(occ)[i := (name, Team(name, Collect(occ, name) + [m]))][k]
  {
    var occ' := occ + [(name, m)];
    var order := FirstAppearance(Keys(occ));
    var x := order[k];
    assert Grouped(occ')[k] == (x, Team(x, Collect(occ', x)));
    CollectSnoc(occ, name, m, x);
    if k != i {
      assert x != name by {
        if k < i { assert order[k] != order[i]; } else { assert order[i] != order[k]; }
      }
      assert Collect(occ', x) == Collect(occ, x) + [];
      assert Collect(occ, x) + [] == Collect(occ, x);
      assert Grouped(occ)[k] == (x, Team(x, Collect(occ, x)));
    }
  }

  /** Visiting a pair of a new team appends that team with this one match. */
  lemma GroupedStepAbsent(occ: seq<(string, Match)>, name: string, m: Match)
    requires name !in FirstAppearance(Keys(occ))
    ensures Grouped(occ + [(name, m)]) == AddMatch(Grouped(occ), name, m)
  {
    var occ' := occ + [(name, m)];
    var d := Grouped(occ);
    var v := Team(name, [m]);
    var g' := Grouped(occ');
    assert FirstAppearance(Keys(occ')) == FirstAppearance(Keys(occ)) + [name] by {
      KeysConcat(occ, [(name, m)]);
      FirstAppearanceSnoc(Keys(occ), name);
    }
    assert AddMatch(d, name, m) == d + [(name, v)] by {
      GroupedKeys(occ);
      PutAbsent(d, name, v);
    }
    assert g' == d + [(name, v)] by {
      forall k | 0 <= k < |g'| ensures g'[k] == (d + [(name, v)])[k] {
        GroupedAbsentAt(occ, name, m, k);
      }
      SameAt(g', d + [(name, v)]);
    }
  }

  lemma SameAt<T>(a: seq<T>, b: seq<T>)
    requires |a| == |b| && forall k :: 0 <= k < |a| ==> a[k] == b[k]
    ensures a == b
  {
  }

  lemma GroupedAbsentAt(occ: seq<(string, Match)>, name: string, m: Match, k: nat)
    requires name !in FirstAppearance(Keys(occ))
    requires FirstAppearance(Keys(occ + [(name, m)])) == FirstAppearance(Keys(occ)) + [name]
    requires k <= |FirstAppearance(Keys(occ))|
    ensures Grouped(occ + [(name, m)])[k] == (Grouped(occ) + [(name, Team(name, [m]))])[k]
  {
    var occ' := occ + [(name, m)];
    var order := FirstAppearance(Keys(occ));
    var x := (order + [name])[k];
    assert Grouped(occ')[k] == (x, Team(x, Collect(occ', x)));
    CollectSnoc(occ, name, m, x);
    if k < |order| {
      assert x == order[k] && x in order && x != name;
      assert Collect(occ', x) == Collect(occ, x);
      assert Grouped(occ)[k] == (x, Team(x, Collect(occ, x)));
    } else {
      CollectAbsent(occ, name);
      assert x == name;
      assert Collect(occ', x) == [m];
    }
  }

  /** Visiting one more pair is exactly one `AddMatch` step. */
  lemma GroupedStep(occ: seq<(string, Match)>, name: string, m: Match)
    ensures Grouped(occ + [(name, m)]) == AddMatch(Grouped(occ), name, m)
  {
    var order := FirstAppearance(Keys(occ));
    if name in order {
      var i :| 0 <= i < |order| && order[i] == name;
      GroupedStepPresent(occ, name, m, i);
    } else {
      GroupedStepAbsent(occ, name, m);
    }
  }

  lemma SlotStep(visited: seq<(string, Match)>, m: Match, j: nat)
    requires j < 2
    ensures visited + Slots(m)[..j + 1] == visited + Slots(m)[..j] + [(if j == 0 then m.teams.0 else m.teams.1, m)]
  {
  }

  lemma OccurrencesStep(ms: seq<Match>, i: nat)
    requires i < |ms|
    ensures Occurrences(ms[..i + 1]) == Occurrences(ms[..i]) + Slots(ms[i])[..2]
  {
    assert ms[..i + 1][..i] == ms[..i];
    assert Slots(ms[i])[..2] == Slots(ms[i]);
  }

  /** `get_league_from_matches`: group the matches by team, then build the league. */
  method GetLeagueFromMatches(matches: seq<Match>) returns (league: League)
    ensures fresh(league)
    ensures league.Valid()
    ensures league.teams == LeagueTeams(matches)
    ensures league.standings == MakeStandings(league.teams)
  {
    var leagueTeams: Dict<string, Team> := [];
    for i := 0 to |matches|
      invariant leagueTeams == Grouped(Occurrences(matches[..i]))
    {
      var m := matches[i];
      ghost var visited := Occurrences(matches[..i]);
      assert visited + Slots(m)[..0] == visited;
      for j := 0 to 2
        invariant leagueTeams == Grouped(visited + Slots(m)[..j])
      {
        var team := if j == 0 then m.teams.0 else m.teams.1;
        SlotStep(visited, m, j);
        GroupedStep(visited + Slots(m)[..j], team, m);
        var found := Get(leagueTeams, team);
        if found.None? {
          leagueTeams := Put(leagueTeams, team, Team(team, [m]));
        } else {
          leagueTeams := Put(leagueTeams, team, Team(found.value.name, found.value.matches + [m]));
        }
      }
      OccurrencesStep(matches, i);
    }
    assert matches[..|matches|] == matches;
    var teamsList := Values(leagueTeams);
    league := new League(teamsList);
  }

  /** The matches of `ms` in which `name` plays, in input order. */
  function Naming(ms: seq<Match>, name: string): seq<Match>
  {
    if ms == [] then []
    else
      var m := ms[|ms| - 1];
      Naming(ms[..|ms| - 1], name) + (if m.teams.0 == name || m.teams.1 == name then [m] else [])
  }

  lemma {:induction false} CollectConcat(a: seq<(string, Match)>, b: seq<(string, Match)>, name: string)
    ensures Collect(a + b, name) == Collect(a, name) + Collect(b, name)
  {
    if b == [] {
      assert a + b == a;
    } else {
      assert (a + b)[..|a + b| - 1] == a + b[..|b| - 1];
      assert (a + b)[|a + b| - 1] == b[|b| - 1];
      CollectConcat(a, b[..|b| - 1], name);
    }
  }

  /** When no match pits a team against itself, each visited name collects exactly the matches naming it. */
  lemma {:induction false} CollectOccurrences(ms: seq<Match>, name: string)
    requires forall i :: 0 <= i < |ms| ==> ms[i].teams.0 != ms[i].teams.1
    ensures Collect(Occurrences(ms), name) == Naming(ms, name)
  {
    if ms != [] {
      var m := ms[|ms| - 1];
      CollectOccurrences(ms[..|ms| - 1], name);
      CollectConcat(Occurrences(ms[..|ms| - 1]), Slots(m), name);
      assert Slots(m)[..1] == [(m.teams.0, m)];
      assert [(m.teams.0, m)][..0] == [];
      assert Collect([(m.teams.0, m)], name) == (if m.teams.0 == name then [m] else []);
      assert Collect(Slots(m), name) == Collect([(m.teams.0, m)], name) + (if m.teams.1 == name then [m] else []);
      assert m.teams.0 != m.teams.1;
      assert Collect(Slots(m), name) == (if m.teams.0 == name || m.teams.1 == name then [m] else []);
    }
  }

  lemma {:induction false} OccurrenceNames(ms: seq<Match>, name: string)
    ensures name in Keys(Occurrences(ms)) <==> exists i :: 0 <= i < |ms| && (ms[i].teams.0 == name || ms[i].teams.1 == name)
  {
    if ms != [] {
      var init := ms[..|ms| - 1];
      var m := ms[|ms| - 1];
      OccurrenceNames(init, name);
      KeysConcat(Occurrences(init), Slots(m));
      assert Keys(Slots(m)) == [m.teams.0, m.teams.1];
      if exists i :: 0 <= i < |ms| && (ms[i].teams.0 == name || ms[i].teams.1 == name) {
        var i :| 0 <= i < |ms| && (ms[i].teams.0 == name || ms[i].teams.1 == name);
        if i < |init| {
          assert init[i] == ms[i];
        }
      }
      if exists i :: 0 <= i < |init| && (init[i].teams.0 == name || init[i].teams.1 == name) {
        var i :| 0 <= i < |init| && (init[i].teams.0 == name || init[i].teams.1 == name);
        assert ms[i] == init[i];
      }
    }
  }

  /**
   * The teams of `get_league_from_matches`: one per name appearing in the
   * matches, with distinct names, in order of first appearance, and (when no
   * match pits a team against itself) each with exactly the matches naming
   * it, in input order.
   */
  lemma LeagueTeamsSpec(ms: seq<Match>)
    ensures Names(LeagueTeams(ms)) == FirstAppearance(Keys(Occurrences(ms)))
    ensures forall i, j :: 0 <= i < j < |LeagueTeams(ms)| ==> LeagueTeams(ms)[i].name != LeagueTeams(ms)[j].name
    ensures forall name :: name in Names(LeagueTeams(ms)) <==>
      exists i :: 0 <= i < |ms| && (ms[i].teams.0 == name || ms[i].teams.1 == name)
    ensures (forall i :: 0 <= i < |ms| ==> ms[i].teams.0 != ms[i].teams.1) ==>
      forall t :: t in LeagueTeams(ms) ==> t.matches == Naming(ms, t.name)
  {
    var occ := Occurrences(ms);
    var ts := LeagueTeams(ms);
    var order := FirstAppearance(Keys(occ));
    assert |ts| == |order|;
    forall k | 0 <= k < |ts| ensures ts[k] == Team(order[k], Collect(occ, order[k])) {
      assert ts[k] == Grouped(occ)[k].1;
    }
    assert Names(ts) == order;
    forall name ensures name in Names(ts) <==> exists i :: 0 <= i < |ms| && (ms[i].teams.0 == name || ms[i].teams.1 == name) {
      OccurrenceNames(ms, name);
    }
    if forall i :: 0 <= i < |ms| ==> ms[i].teams.0 != ms[i].teams.1 {
      forall t | t in ts ensures t.matches == Naming(ms, t.name) {
        var k :| 0 <= k < |ts| && ts[k] == t;
        CollectOccurrences(ms, t.name);
      }
    }
  }
}
