/**
 * Turning scores into places (leagueprobs/leagues.py): the commented
 * `teams_by_wins`, `League.place_teams` (competition ranking) and
 * `LCS.place_teams_lcs`.
 */
module Placing {
  import opened Wrappers
  import opened OrderedDicts
  import opened Sorting
  import opened Standings

  /** `teams_by_wins`: score -> names with that score, keys in first-seen order. */
  function ByWins(pairs: seq<(string, int)>): Buckets
  {
    if pairs == [] then []
    else AddToBucket(ByWins(pairs[..|pairs| - 1]), pairs[|pairs| - 1].1, pairs[|pairs| - 1].0)
  }

  /** The names scoring `w`, in input order. */
  function NamesWith(pairs: seq<(string, int)>, w: int): seq<string>
  {
    if pairs == [] then []
    else NamesWith(pairs[..|pairs| - 1], w) + (if pairs[|pairs| - 1].1 == w then [pairs[|pairs| - 1].0] else [])
  }

  lemma {:induction false} ByWinsShape(pairs: seq<(string, int)>)
    ensures KeysUnique(ByWins(pairs)) && NoEmptyBucket(ByWins(pairs))
  {
    if pairs != [] {
      ByWinsShape(pairs[..|pairs| - 1]);
      AddToBucketUnique(ByWins(pairs[..|pairs| - 1]), pairs[|pairs| - 1].1, pairs[|pairs| - 1].0);
    }
  }

  /**
   * Each score that occurs has one bucket holding exactly the names with that
   * score, in input order, and no other score has a bucket.
   */
  lemma {:induction false} ByWinsGet(pairs: seq<(string, int)>, w: int)
    ensures Get(ByWins(pairs), w) == if NamesWith(pairs, w) == [] then None else Some(NamesWith(pairs, w))
  {
    if pairs != [] {
      var init := pairs[..|pairs| - 1];
      var last := pairs[|pairs| - 1];
      var prev := ByWins(init);
      ByWinsGet(init, w);
      assert ByWins(pairs) == AddToBucket(prev, last.1, last.0);
      assert NamesWith(pairs, w) == NamesWith(init, w) + (if last.1 == w then [last.0] else []);
      if last.1 == w {
        assert Get(prev, w).GetOr([]) == NamesWith(init, w);
        assert NamesWith(pairs, w) == NamesWith(init, w) + [last.0];
        assert |NamesWith(pairs, w)| > 0;
        assert Get(ByWins(pairs), w) == Some(NamesWith(pairs, w));
      } else {
        assert NamesWith(pairs, w) == NamesWith(init, w);
        assert Get(ByWins(pairs), w) == Get(prev, w);
      }
    }
  }

  /** The buckets hold exactly the input names. */
  lemma {:induction false} ByWinsTeams(pairs: seq<(string, int)>)
    ensures multiset(Flatten(ByWins(pairs))) == multiset(Keys(pairs))
  {
    if pairs != [] {
      var init := pairs[..|pairs| - 1];
      var last := pairs[|pairs| - 1];
      ByWinsTeams(init);
      assert multiset(Flatten(ByWins(pairs))) == multiset(Flatten(ByWins(init))) + multiset{last.0} by {
        ByWinsShape(init);
        AddToBucketTeams(ByWins(init), last.1, last.0);
      }
      assert Keys(pairs) == Keys(init) + [last.0] by {
        KeysConcat(init, [last]);
        assert init + [last] == pairs;
      }
    }
  }

  /** The loop of `teams_by_wins`. */
  method TeamsByWins(pairs: seq<(string, int)>) returns (wins: Buckets)
    ensures wins == ByWins(pairs)
  {
    wins := [];
    for i := 0 to |pairs|
      invariant wins == ByWins(pairs[..i])
    {
      var (team, record) := pairs[i];
      wins := AddToBucket(wins, record, team);
      assert pairs[..i + 1][..i] == pairs[..i];
    }
    assert pairs[..|pairs|] == pairs;
  }

  /** The sort key of a score group: its score. */
  function GroupKey(g: (int, seq<string>)): int
  {
    g.0
  }

  /** `sorted(team_wins.items(), reverse=True)`: score groups, best first. */
  function SortedGroups(teamWins: Buckets): seq<(int, seq<string>)>
  {
    SortDesc(teamWins, GroupKey)
  }

  /** The bucket at `place` extended by every team of `ts`, in order; nothing for no teams. */
  function AddAll(out: Buckets, place: int, ts: seq<string>): Buckets
  {
    if ts == [] then out else Put(out, place, Get(out, place).GetOr([]) + ts)
  }

  /** One more `output.setdefault(place, []).append(team)` extends the bucket by that team. */
  lemma AddAllSnoc(start: Buckets, place: int, pre: seq<string>, t: string)
    ensures AddToBucket(AddAll(start, place, pre), place, t) == AddAll(start, place, pre + [t])
  {
    var base := Get(start, place).GetOr([]);
    if pre == [] {
      assert pre + [t] == [t];
    } else {
      assert Get(AddAll(start, place, pre), place).GetOr([]) + [t] == base + (pre + [t]);
      PutPut(start, place, base + pre, base + (pre + [t]));
    }
  }

  /** The outer loop of `place_teams`: every team of a group gets the group's first free place. */
  function PlaceGroups(groups: seq<(int, seq<string>)>, out: Buckets, next: int): Buckets
  {
    if groups == [] then out
    else PlaceGroups(groups[1..], AddAll(out, next, groups[0].1), next + |groups[0].1|)
  }

  /** `place_teams`, loop by loop, on the output dict it fills. */
  method PlaceTeams(teamWins: Buckets, output: Buckets, nextPlace: int) returns (out: Buckets)
    ensures out == PlaceGroups(SortedGroups(teamWins), output, nextPlace)
  {
    var groups := SortedGroups(teamWins);
    ghost var target := PlaceGroups(groups, output, nextPlace);
    out := output;
    var next := nextPlace;
    for g := 0 to |groups|
      invariant PlaceGroups(groups[g..], out, next) == target
    {
      ghost var start := out;
      var place := next;
      out, next := PlaceGroup(out, place, groups[g].1);
      PlaceGroupsStep(groups, g, start, place, out, next, target);
    }
  }

  /** The inner loop of `place_teams`: every team of one group goes to `place`, and each advances the next place. */
  method PlaceGroup(output: Buckets, place: int, teams: seq<string>) returns (out: Buckets, next: int)
    ensures out == AddAll(output, place, teams)
    ensures next == place + |teams|
  {
    out := output;
    next := place;
    for j := 0 to |teams|
      invariant next == place + j
      invariant out == AddAll(output, place, teams[..j])
    {
      AddAllSnoc(output, place, teams[..j], teams[j]);
      assert teams[..j + 1] == teams[..j] + [teams[j]];
      out := AddToBucket(out, place, teams[j]);
      next := next + 1;
    }
    assert teams[..|teams|] == teams;
  }

  /** One pass of the outer loop of `place_teams`. */
  lemma PlaceGroupsStep(groups: seq<(int, seq<string>)>, g: nat, start: Buckets, place: int, out: Buckets, next: int, target: Buckets)
    requires g < |groups| && PlaceGroups(groups[g..], start, place) == target
    requires out == AddAll(start, place, groups[g].1) && next == place + |groups[g].1|
    ensures PlaceGroups(groups[g + 1..], out, next) == target
  {
    assert groups[g..][1..] == groups[g + 1..];
  }

  /** Competition ranking: each group at `n` plus the number of teams placed before it. */
  function Ranking(groups: seq<(int, seq<string>)>, n: int): Buckets
  {
    if groups == [] then [] else [(n, groups[0].1)] + Ranking(groups[1..], n + |groups[0].1|)
  }

  predicate NoEmptyGroup(groups: seq<(int, seq<string>)>)
  {
    forall i :: 0 <= i < |groups| ==> groups[i].1 != []
  }

  /** Appending a group at a fresh place adds one bucket at the end. */
  lemma AddAllFresh(out: Buckets, place: int, ts: seq<string>)
    requires place !in Keys(out) && ts != []
    ensures AddAll(out, place, ts) == out + [(place, ts)]
  {
    var cur := Get(out, place);
    assert cur == None;
    EmptyConcat(ts);
    PutAbsent(out, place, ts);
  }

  lemma EmptyConcat(ts: seq<string>)
    ensures [] + ts == ts
  {
  }

  /** Every place already in `out` is below `n`. */
  predicate PlacedBelow(out: Buckets, n: int)
  {
    forall i :: 0 <= i < |out| ==> out[i].0 < n
  }

  /** Appending a bucket at `n` to places below `n` leaves places below `n + |ts|`. */
  lemma BelowNotIn(out: Buckets, n: int)
    requires PlacedBelow(out, n)
    ensures n !in Keys(out)
  {
  }

  lemma KeysBelowSnoc(out: Buckets, n: int, ts: seq<string>)
    requires KeysUnique(out) && ts != [] && PlacedBelow(out, n)
    ensures n !in Keys(out)
    ensures KeysUnique(out + [(n, ts)])
    ensures PlacedBelow(out + [(n, ts)], n + |ts|)
  {
    KeysUniqueSnoc(out, n, ts);
  }

  lemma NoEmptyGroupTail(groups: seq<(int, seq<string>)>)
    requires groups != [] && NoEmptyGroup(groups)
    ensures groups[0].1 != [] && NoEmptyGroup(groups[1..])
  {
    forall i | 0 <= i < |groups[1..]| ensures groups[1..][i].1 != [] {
      assert groups[1..][i] == groups[i + 1];
    }
  }

  /** Placing the first group at a fresh place `n` appends one bucket. */
  lemma PlaceGroupsHead(groups: seq<(int, seq<string>)>, out: Buckets, n: int)
    requires groups != [] && groups[0].1 != [] && KeysUnique(out) && n !in Keys(out)
    ensures PlaceGroups(groups, out, n) == PlaceGroups(groups[1..], out + [(n, groups[0].1)], n + |groups[0].1|)
  {
    AddAllFresh(out, n, groups[0].1);
  }

  /** Placing `groups` into `out` from `n` on appends their competition ranking. */
  predicate AppendsRanking(groups: seq<(int, seq<string>)>, out: Buckets, n: int)
  {
    PlaceGroups(groups, out, n) == out + Ranking(groups, n)
  }

  /** Placing groups after places below `n` appends their competition ranking. */
  lemma {:induction false} PlaceGroupsRanking(groups: seq<(int, seq<string>)>, out: Buckets, n: int)
    requires KeysUnique(out) && NoEmptyGroup(groups) && PlacedBelow(out, n)
    ensures AppendsRanking(groups, out, n)
    decreases |groups|, 1
  {
    if groups == [] {
      assert out + [] == out;
    } else {
      BelowNotIn(out, n);
      RankingTail(groups, out, n);
      RankingStep(groups, out, n);
    }
  }

  /** The induction step: the remaining groups rank after the first one. */
  lemma {:induction false} RankingTail(groups: seq<(int, seq<string>)>, out: Buckets, n: int)
    requires groups != [] && KeysUnique(out) && NoEmptyGroup(groups) && PlacedBelow(out, n)
    ensures AppendsRanking(groups[1..], out + [(n, groups[0].1)], n + |groups[0].1|)
    decreases |groups|, 0
  {
    NoEmptyGroupTail(groups);
    KeysBelowSnoc(out, n, groups[0].1);
    PlaceGroupsRanking(groups[1..], out + [(n, groups[0].1)], n + |groups[0].1|);
  }

  lemma RankingStep(groups: seq<(int, seq<string>)>, out: Buckets, n: int)
    requires groups != [] && groups[0].1 != [] && KeysUnique(out) && n !in Keys(out)
    requires AppendsRanking(groups[1..], out + [(n, groups[0].1)], n + |groups[0].1|)
    ensures AppendsRanking(groups, out, n)
  {
    PlaceGroupsHead(groups, out, n);
    SnocAssoc(out, (n, groups[0].1), Ranking(groups[1..], n + |groups[0].1|));
    RankingCons(groups, n);
  }

  lemma RankingCons(groups: seq<(int, seq<string>)>, n: int)
    requires groups != []
    ensures Ranking(groups, n) == [(n, groups[0].1)] + Ranking(groups[1..], n + |groups[0].1|)
  {
  }

  lemma SnocAssoc<T>(a: seq<T>, x: T, b: seq<T>)
    ensures (a + [x]) + b == a + ([x] + b)
  {
  }

  /** `place_teams` into an empty dict is the competition ranking of the sorted groups. */
  lemma PlaceTeamsRanking(teamWins: Buckets, n: int)
    requires NoEmptyBucket(teamWins)
    ensures PlaceGroups(SortedGroups(teamWins), [], n) == Ranking(SortedGroups(teamWins), n)
  {
    var groups := SortedGroups(teamWins);
    forall i | 0 <= i < |groups| ensures groups[i].1 != [] {
      assert groups[i] in multiset(teamWins);
    }
    PlaceGroupsRanking(groups, [], n);
    assert [] + Ranking(groups, n) == Ranking(groups, n);
  }

  /**
   * In the ranking, group `g` is placed at `n` plus the number of teams in the
   * groups before it, keeps its team order, and (for non-empty groups) places
   * stay below `n` plus the number of teams.
   */
  lemma {:induction false} RankingAt(groups: seq<(int, seq<string>)>, n: int, g: nat)
    requires g < |groups|
    ensures |Ranking(groups, n)| == |groups|
    ensures Ranking(groups, n)[g] == (n + |Flatten(groups[..g])|, groups[g].1)
    ensures n + |Flatten(groups[..g])| + |groups[g].1| <= n + |Flatten(groups)|
  {
    FlattenConcat(groups[..g], groups[g..]);
    assert groups == groups[..g] + groups[g..];
    assert Flatten(groups[g..]) == groups[g].1 + Flatten(groups[g..][1..]);
    if g > 0 {
      RankingAt(groups[1..], n + |groups[0].1|, g - 1);
      assert groups[..g] == [groups[0]] + groups[1..][..g - 1];
      FlattenConcat([groups[0]], groups[1..][..g - 1]);
      assert Flatten([groups[0]]) == groups[0].1 by {
        assert [groups[0]][1..] == [];
      }
    } else {
      RankingLength(groups, n);
    }
  }

  lemma {:induction false} RankingLength(groups: seq<(int, seq<string>)>, n: int)
    ensures |Ranking(groups, n)| == |groups|
  {
    if groups != [] {
      RankingLength(groups[1..], n + |groups[0].1|);
    }
  }

  /** The ranking places every team of every group. */
  lemma {:induction false} RankingTeams(groups: seq<(int, seq<string>)>, n: int)
    ensures Flatten(Ranking(groups, n)) == Flatten(groups)
  {
    if groups != [] {
      RankingTeams(groups[1..], n + |groups[0].1|);
    }
  }

  /**
   * `place_teams(team_wins, {}, n)` appends every input team exactly once,
   * places the best group at `n`, and ranks as in competition ranking.
   */
  lemma PlaceTeamsSpec(teamWins: Buckets, n: int)
    requires NoEmptyBucket(teamWins)
    ensures |PlaceGroups(SortedGroups(teamWins), [], n)| == |teamWins|
    ensures multiset(Flatten(PlaceGroups(SortedGroups(teamWins), [], n))) == multiset(Flatten(teamWins))
    ensures RankingShape(SortedGroups(teamWins), PlaceGroups(SortedGroups(teamWins), [], n), n)
  {
    var groups := SortedGroups(teamWins);
    SortedGroupsLength(teamWins);
    PlaceTeamsRanking(teamWins, n);
    RankingShapeHolds(groups, n);
    FlattenPermutation(groups, teamWins);
  }

  lemma SortedGroupsLength(teamWins: Buckets)
    ensures |SortedGroups(teamWins)| == |teamWins|
  {
    var groups := SortedGroups(teamWins);
    assert |groups| == |multiset(groups)| == |multiset(teamWins)| == |teamWins|;
  }

  /** The shape of a competition ranking `r` of `groups` starting at `n`. */
  predicate RankingShape(groups: seq<(int, seq<string>)>, r: Buckets, n: int)
  {
    && |r| == |groups|
    && Flatten(r) == Flatten(groups)
    && (groups != [] ==> r[0] == (n, groups[0].1))
    && forall g :: 0 <= g < |groups| ==> r[g] == (n + |Flatten(groups[..g])|, groups[g].1)
  }

  lemma RankingShapeHolds(groups: seq<(int, seq<string>)>, n: int)
    ensures RankingShape(groups, Ranking(groups, n), n)
  {
    var r := Ranking(groups, n);
    RankingTeams(groups, n);
    RankingLength(groups, n);
    forall g | 0 <= g < |groups| ensures r[g] == (n + |Flatten(groups[..g])|, groups[g].1) {
      RankingAt(groups, n, g);
    }
    if groups != [] {
      assert groups[..0] == [];
    }
  }

  /** `if not output.get(place): output[place] = []`. */
  function EnsureBucket(out: Buckets, place: int): Buckets
  {
    if Get(out, place).GetOr([]) != [] then out else Put(out, place, [])
  }

  /** The first branch of `place_teams_lcs`: append and advance the next place. */
  predicate Decisive(wins: int, tied: int)
  {
    (tied == 3 && wins == 4) || tied == 2
  }

  /**
   * The inner loop of `place_teams_lcs` over one score group; the result is the
   * output dict and `next_place` afterwards. The third branch breaks out of
   * this inner loop only.
   */
  function LcsGroup(ts: seq<string>, out: Buckets, place: int, next: int, wins: int, tied: int): (Buckets, int)
  {
    if ts == [] then (out, next)
    else
      var out1 := EnsureBucket(out, place);
      if Decisive(wins, tied) then LcsGroup(ts[1..], AddToBucket(out1, place, ts[0]), place, next + 1, wins, tied)
      else if tied == 3 && next > 0 then LcsGroup(ts[1..], AddToBucket(out1, place, ts[0]), place, next, wins, tied)
      else if tied == 3 then (out1, next)
      else LcsGroup(ts[1..], out1, place, next, wins, tied)
  }

  /** The outer loop of `place_teams_lcs`. */
  function PlaceLcsGroups(groups: seq<(int, seq<string>)>, out: Buckets, next: int, tied: int): Buckets
  {
    if groups == [] then out
    else
      var (out', next') := LcsGroup(groups[0].1, out, next, next, groups[0].0, tied);
      PlaceLcsGroups(groups[1..], out', next', tied)
  }

  lemma LcsGroupStep(ts: seq<string>, j: nat, out: Buckets, place: int, next: int, wins: int, tied: int)
    requires j < |ts|
    ensures LcsGroup(ts[j..], out, place, next, wins, tied) ==
      var out1 := EnsureBucket(out, place);
      if Decisive(wins, tied) then LcsGroup(ts[j + 1..], AddToBucket(out1, place, ts[j]), place, next + 1, wins, tied)
      else if tied == 3 && next > 0 then LcsGroup(ts[j + 1..], AddToBucket(out1, place, ts[j]), place, next, wins, tied)
      else if tied == 3 then (out1, next)
      else LcsGroup(ts[j + 1..], out1, place, next, wins, tied)
  {
    assert ts[j..][1..] == ts[j + 1..];
  }

  lemma PlaceLcsGroupsStep(groups: seq<(int, seq<string>)>, g: nat, out: Buckets, next: int, tied: int)
    requires g < |groups|
    ensures PlaceLcsGroups(groups[g..], out, next, tied) ==
      var (out', next') := LcsGroup(groups[g].1, out, next, next, groups[g].0, tied);
      PlaceLcsGroups(groups[g + 1..], out', next', tied)
  {
    assert groups[g..][1..] == groups[g + 1..];
  }

  /** `place_teams_lcs`, loop by loop, with its `break`. */
  method PlaceTeamsLcs(teamWins: Buckets, output: Buckets, tiedTeams: int, nextPlace: int) returns (out: Buckets)
    ensures out == PlaceLcsGroups(SortedGroups(teamWins), output, nextPlace, tiedTeams)
  {
    var groups := SortedGroups(teamWins);
    out := output;
    var next := nextPlace;
    for g := 0 to |groups|
      invariant PlaceLcsGroups(groups[g..], out, next, tiedTeams) == PlaceLcsGroups(groups, output, nextPlace, tiedTeams)
    {
      var (wins, teams) := groups[g];
      var place := next;
      ghost var start := (out, next);
      PlaceLcsGroupsStep(groups, g, out, next, tiedTeams);
      var j := 0;
      while j < |teams|
        invariant 0 <= j <= |teams|
        invariant LcsGroup(teams[j..], out, place, next, wins, tiedTeams) == LcsGroup(teams, start.0, place, start.1, wins, tiedTeams)
      {
        LcsGroupStep(teams, j, out, place, next, wins, tiedTeams);
        out := EnsureBucket(out, place);
        if (tiedTeams == 3 && wins == 4) || tiedTeams == 2 {
          out := AddToBucket(out, place, teams[j]);
          next := next + 1;
        } else if tiedTeams == 3 && next > 0 {
          out := AddToBucket(out, place, teams[j]);
        } else if tiedTeams == 3 {
          break;
        }
        j := j + 1;
      }
      assert teams[|teams|..] == [];
    }
  }

  /** Creating an empty bucket first does not change what appending to it gives. */
  lemma EnsureThenAdd(out: Buckets, place: int, t: string)
    ensures AddToBucket(EnsureBucket(out, place), place, t) == AddToBucket(out, place, t)
  {
    if Get(out, place).GetOr([]) == [] {
      PutPut(out, place, [], [t]);
      assert Get(out, place).GetOr([]) + [t] == [t];
    }
  }

  /** Appending one team and then a run of teams appends them all at once. */
  lemma AddAllCons(out: Buckets, place: int, t: string, rest: seq<string>)
    ensures AddAll(AddToBucket(out, place, t), place, rest) == AddAll(out, place, [t] + rest)
  {
    var before := Get(out, place).GetOr([]);
    if rest == [] {
      AppendNothing([t], rest);
    } else {
      PutPut(out, place, before + [t], (before + [t]) + rest);
      AppendAssoc(before, [t], rest);
    }
  }

  lemma AppendNothing<T>(a: seq<T>, b: seq<T>)
    requires b == []
    ensures a + b == a
  {
  }

  lemma AppendToNothing<T>(a: seq<T>, b: seq<T>)
    requires a == []
    ensures a + b == b
  {
  }

  lemma AppendAssoc<T>(a: seq<T>, b: seq<T>, c: seq<T>)
    ensures (a + b) + c == a + (b + c)
  {
  }

  lemma ConsSplit<T>(s: seq<T>)
    requires s != []
    ensures [s[0]] + s[1..] == s
  {
  }

  /** Two runs appended to the same bucket are their concatenation appended. */
  lemma AddAllTwice(out: Buckets, place: int, a: seq<string>, b: seq<string>)
    ensures AddAll(AddAll(out, place, a), place, b) == AddAll(out, place, a + b)
  {
    var before := Get(out, place).GetOr([]);
    if a == [] {
      AppendToNothing(a, b);
    } else if b == [] {
      AppendNothing(a, b);
    } else {
      PutPut(out, place, before + a, (before + a) + b);
      AppendAssoc(before, a, b);
    }
  }

  /**
   * A group under the first branch (`tied_teams == 2`, or three tied with
   * four wins) is placed as `place_teams` places it; `next_place` advances by
   * the group's size.
   */
  lemma LcsDecisive(ts: seq<string>, out: Buckets, place: int, next: int, wins: int, tied: int)
    requires Decisive(wins, tied)
    ensures LcsGroup(ts, out, place, next, wins, tied).0 == AddAll(out, place, ts)
    ensures LcsGroup(ts, out, place, next, wins, tied).1 == next + |ts|
  {
    LcsDecisiveAll(ts, place, wins, tied);
    assert DecisiveShape(ts, out, place, next, wins, tied);
  }

  predicate DecisiveShape(ts: seq<string>, out: Buckets, place: int, next: int, wins: int, tied: int)
  {
    LcsGroup(ts, out, place, next, wins, tied).0 == AddAll(out, place, ts) &&
    LcsGroup(ts, out, place, next, wins, tied).1 == next + |ts|
  }

  lemma {:induction false} LcsDecisiveAll(ts: seq<string>, place: int, wins: int, tied: int)
    requires Decisive(wins, tied)
    ensures forall out, next :: DecisiveShape(ts, out, place, next, wins, tied)
  {
    if ts != [] {
      LcsDecisiveAll(ts[1..], place, wins, tied);
      forall out, next ensures DecisiveShape(ts, out, place, next, wins, tied) {
        DecisiveShapeStep(ts, out, place, next, wins, tied);
      }
    }
  }

  lemma DecisiveShapeStep(ts: seq<string>, out: Buckets, place: int, next: int, wins: int, tied: int)
    requires ts != [] && Decisive(wins, tied)
    requires DecisiveShape(ts[1..], AddToBucket(out, place, ts[0]), place, next + 1, wins, tied)
    ensures DecisiveShape(ts, out, place, next, wins, tied)
  {
    LcsDecisiveStep(ts, out, place, next, wins, tied);
    AddAllFirst(out, place, ts);
  }

  lemma AddAllFirst(out: Buckets, place: int, ts: seq<string>)
    requires ts != []
    ensures AddAll(AddToBucket(out, place, ts[0]), place, ts[1..]) == AddAll(out, place, ts)
  {
    AddAllCons(out, place, ts[0], ts[1..]);
    ConsSplit(ts);
  }

  lemma LcsDecisiveStep(ts: seq<string>, out: Buckets, place: int, next: int, wins: int, tied: int)
    requires ts != [] && Decisive(wins, tied)
    ensures LcsGroup(ts, out, place, next, wins, tied) ==
      LcsGroup(ts[1..], AddToBucket(out, place, ts[0]), place, next + 1, wins, tied)
  {
    EnsureThenAdd(out, place, ts[0]);
  }

  /** A two-way tie is placed exactly as `place_teams` places it. */
  lemma LcsTwoIsPlaceTeams(groups: seq<(int, seq<string>)>, out: Buckets, next: int)
    ensures PlaceLcsGroups(groups, out, next, 2) == PlaceGroups(groups, out, next)
  {
    LcsTwoAgrees(groups);
    assert TwoAgrees(groups, out, next);
  }

  predicate TwoAgrees(groups: seq<(int, seq<string>)>, out: Buckets, next: int)
  {
    PlaceLcsGroups(groups, out, next, 2) == PlaceGroups(groups, out, next)
  }

  lemma {:induction false} LcsTwoAgrees(groups: seq<(int, seq<string>)>)
    ensures forall out, next :: TwoAgrees(groups, out, next)
  {
    if groups != [] {
      LcsTwoAgrees(groups[1..]);
      forall out, next ensures TwoAgrees(groups, out, next) {
        TwoAgreesStep(groups, out, next);
      }
    }
  }

  lemma TwoAgreesStep(groups: seq<(int, seq<string>)>, out: Buckets, next: int)
    requires groups != []
    requires TwoAgrees(groups[1..], AddAll(out, next, groups[0].1), next + |groups[0].1|)
    ensures TwoAgrees(groups, out, next)
  {
    LcsTwoStep(groups, out, next);
    PlaceGroupsCons(groups, out, next);
  }

  lemma LcsTwoStep(groups: seq<(int, seq<string>)>, out: Buckets, next: int)
    requires groups != []
    ensures PlaceLcsGroups(groups, out, next, 2) ==
      PlaceLcsGroups(groups[1..], AddAll(out, next, groups[0].1), next + |groups[0].1|, 2)
  {
    PlaceLcsGroupsCons(groups, out, next, 2);
    LcsDecisive(groups[0].1, out, next, next, groups[0].0, 2);
  }

  lemma PlaceGroupsCons(groups: seq<(int, seq<string>)>, out: Buckets, next: int)
    requires groups != []
    ensures PlaceGroups(groups, out, next) == PlaceGroups(groups[1..], AddAll(out, next, groups[0].1), next + |groups[0].1|)
  {
  }

  lemma PlaceLcsGroupsCons(groups: seq<(int, seq<string>)>, out: Buckets, next: int, tied: int)
    requires groups != []
    ensures PlaceLcsGroups(groups, out, next, tied) ==
      PlaceLcsGroups(groups[1..], LcsGroup(groups[0].1, out, next, next, groups[0].0, tied).0,
        LcsGroup(groups[0].1, out, next, next, groups[0].0, tied).1, tied)
  {
  }

  /**
   * Three tied without four wins, once some team has been placed
   * (`next_place > 0`): the group joins the bucket at `place` and
   * `next_place` stays.
   */
  lemma {:induction false} LcsAttach(ts: seq<string>, out: Buckets, place: int, next: int, wins: int)
    requires wins != 4 && next > 0
    ensures LcsGroup(ts, out, place, next, wins, 3).0 == AddAll(out, place, ts)
    ensures LcsGroup(ts, out, place, next, wins, 3).1 == next
  {
    if ts != [] {
      EnsureThenAdd(out, place, ts[0]);
      LcsAttach(ts[1..], AddToBucket(out, place, ts[0]), place, next, wins);
      AddAllCons(out, place, ts[0], ts[1..]);
      ConsSplit(ts);
    }
  }

  /** After the first placement, every further three-way group shares one bucket. */
  lemma {:induction false} LcsAttachAll(groups: seq<(int, seq<string>)>, out: Buckets, next: int)
    requires next > 0
    requires forall i :: 0 <= i < |groups| ==> groups[i].0 != 4
    ensures PlaceLcsGroups(groups, out, next, 3) == AddAll(out, next, Flatten(groups))
  {
    if groups != [] {
      LcsAttach(groups[0].1, out, next, next, groups[0].0);
      LcsAttachAll(groups[1..], AddAll(out, next, groups[0].1), next);
      AddAllTwice(out, next, groups[0].1, Flatten(groups[1..]));
    }
  }

  /**
   * `place_teams_lcs(team_wins, {}, 3, next_place=0)` when the best group
   * has four wins: that group is placed at 0, in order, and every other team
   * shares the next place, the size of the best group (1 for a single team).
   */
  lemma LcsTopFour(groups: seq<(int, seq<string>)>)
    requires groups != [] && groups[0].0 == 4 && groups[0].1 != []
    requires forall i :: 0 < i < |groups| ==> groups[i].0 != 4
    ensures PlaceLcsGroups(groups, [], 0, 3) ==
      [(0, groups[0].1)] + if Flatten(groups[1..]) == [] then [] else [(|groups[0].1|, Flatten(groups[1..]))]
  {
    TopFourHead(groups);
    TopFourTail(groups);
    TopFourRest(groups[0].1, Flatten(groups[1..]));
  }

  lemma TopFourHead(groups: seq<(int, seq<string>)>)
    requires groups != [] && groups[0].0 == 4 && groups[0].1 != []
    ensures PlaceLcsGroups(groups, [], 0, 3) == PlaceLcsGroups(groups[1..], [(0, groups[0].1)], |groups[0].1|, 3)
  {
    LcsDecisive(groups[0].1, [], 0, 0, 4, 3);
    AddAllEmpty(0, groups[0].1);
    PlaceLcsGroupsWith(groups, [], 0, 3, [(0, groups[0].1)], |groups[0].1|);
  }

  lemma PlaceLcsGroupsWith(groups: seq<(int, seq<string>)>, out: Buckets, next: int, tied: int, out': Buckets, next': int)
    requires groups != []
    requires LcsGroup(groups[0].1, out, next, next, groups[0].0, tied).0 == out'
    requires LcsGroup(groups[0].1, out, next, next, groups[0].0, tied).1 == next'
    ensures PlaceLcsGroups(groups, out, next, tied) == PlaceLcsGroups(groups[1..], out', next', tied)
  {
  }

  lemma TopFourTail(groups: seq<(int, seq<string>)>)
    requires groups != [] && groups[0].1 != []
    requires forall i :: 0 < i < |groups| ==> groups[i].0 != 4
    ensures PlaceLcsGroups(groups[1..], [(0, groups[0].1)], |groups[0].1|, 3) ==
      AddAll([(0, groups[0].1)], |groups[0].1|, Flatten(groups[1..]))
  {
    forall i | 0 <= i < |groups[1..]| ensures groups[1..][i].0 != 4 {
      assert groups[1..][i] == groups[i + 1];
    }
    LcsAttachAll(groups[1..], [(0, groups[0].1)], |groups[0].1|);
  }

  lemma TopFourRest(top: seq<string>, rest: seq<string>)
    requires top != []
    ensures AddAll([(0, top)], |top|, rest) == [(0, top)] + if rest == [] then [] else [(|top|, rest)]
  {
    if rest != [] {
      assert Keys([(0, top)]) == [0];
      assert Get([(0, top)], |top|) == None;
      assert [] + rest == rest;
      PutAbsent([(0, top)], |top|, rest);
    } else {
      assert [(0, top)] + [] == [(0, top)];
    }
  }

  lemma AddAllEmpty(place: int, ts: seq<string>)
    requires ts != []
    ensures AddAll([], place, ts) == [(place, ts)]
  {
    var empty: Buckets := [];
    assert Get(empty, place) == None;
    assert [] + ts == ts;
  }

  /** Creating the empty bucket twice is creating it once. */
  lemma EnsureTwice(out: Buckets, place: int)
    ensures EnsureBucket(EnsureBucket(out, place), place) == EnsureBucket(out, place)
  {
    if Get(out, place).GetOr([]) == [] {
      PutPut(out, place, [], []);
    }
  }

  /**
   * `place_teams_lcs(team_wins, output, 3, next_place=0)` when no group has
   * four wins: nobody is placed; at most an empty bucket 0 is created.
   */
  lemma {:induction false} LcsNoFour(groups: seq<(int, seq<string>)>, out: Buckets)
    requires NoEmptyGroup(groups)
    requires forall i :: 0 <= i < |groups| ==> groups[i].0 != 4
    ensures PlaceLcsGroups(groups, out, 0, 3) == if groups == [] then out else EnsureBucket(out, 0)
  {
    if groups != [] {
      assert groups[0].1 != [];
      NoEmptyGroupTail(groups);
      LcsNoFour(groups[1..], EnsureBucket(out, 0));
      EnsureTwice(out, 0);
    }
  }
}
