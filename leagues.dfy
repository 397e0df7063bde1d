/**
 * The league classes of leagueprobs/leagues.py: bucketed standings (rank ->
 * list of tied team names), `reset_standing_for_team`, the commented
 * `set_standing_for_team`, and the tiebreak passes of LEC (head-to-head, then
 * second-half wins) and LCS (head-to-head on three-way ties).
 *
 * A pass reads a snapshot of the standings and moves teams in the live
 * standings. Its effect is stated as the list of moves it makes
 * (`PassMoves`), applied one after the other (`ApplyMoves`).
 */
module Leagues {
  import opened Wrappers
  import opened OrderedDicts
  import opened Sorting
  import opened Matches
  import opened Teams
  import opened Standings
  import opened Placing

  /** `l.index(t)`: the position of the first `t`. */
  function IndexOf(s: seq<string>, t: string): (i: nat)
    requires t in s
    ensures i < |s| && s[i] == t && t !in s[..i]
  {
    if s[0] == t then 0
    else
      var j := IndexOf(s[1..], t);
      assert s[..j + 1] == [s[0]] + s[1..][..j];
      j + 1
  }

  /** A move: reset the team `.0`, then set it at rank `.1`. */
  type Moves = seq<(string, int)>

  /** The standings after the moves, made in order. */
  function ApplyMoves(st: Buckets, ms: Moves): Buckets
  {
    if ms == [] then st
    else Move(ApplyMoves(st, ms[..|ms| - 1]), ms[|ms| - 1].0, ms[|ms| - 1].1)
  }

  /** Making `a` then `b` is making `a + b`. */
  lemma {:induction false} ApplyMovesConcat(st: Buckets, a: Moves, b: Moves)
    ensures ApplyMoves(st, a + b) == ApplyMoves(ApplyMoves(st, a), b)
  {
    if b == [] {
      assert a + b == a;
    } else {
      assert (a + b)[..|a + b| - 1] == a + b[..|b| - 1];
      ApplyMovesConcat(st, a, b[..|b| - 1]);
    }
  }

  /** One more move. */
  lemma ApplyMovesSnoc(st: Buckets, ms: Moves, t: string, r: int)
    ensures ApplyMoves(st, ms + [(t, r)]) == Move(ApplyMoves(st, ms), t, r)
  {
    assert (ms + [(t, r)])[..|ms|] == ms;
  }

  /** Moving any team keeps one bucket per rank. */
  lemma MoveUnique(st: Buckets, t: string, r: int)
    requires KeysUnique(st)
    ensures KeysUnique(Move(st, t, r))
  {
    ResetUnique(st, t);
    AddToBucketUnique(ResetStanding(st, t), r, t);
  }

  lemma {:induction false} ApplyMovesUnique(st: Buckets, ms: Moves)
    requires KeysUnique(st)
    ensures KeysUnique(ApplyMoves(st, ms))
  {
    if ms != [] {
      ApplyMovesUnique(st, ms[..|ms| - 1]);
      MoveUnique(ApplyMoves(st, ms[..|ms| - 1]), ms[|ms| - 1].0, ms[|ms| - 1].1);
    }
  }

  /** Every moved team is one of `names`. */
  predicate MovesOf(ms: Moves, names: seq<string>)
  {
    forall i :: 0 <= i < |ms| ==> ms[i].0 in names
  }

  /**
   * Moves of teams that are in the standings keep the same teams, one bucket
   * per rank and no empty bucket: a partition stays a partition of the same
   * teams.
   */
  lemma {:induction false} ApplyMovesKeepsPartition(st: Buckets, ms: Moves)
    requires KeysUnique(st) && MovesOf(ms, Flatten(st))
    ensures multiset(Flatten(ApplyMoves(st, ms))) == multiset(Flatten(st))
    ensures Partition(st) ==> Partition(ApplyMoves(st, ms))
  {
    if ms != [] {
      var init := ms[..|ms| - 1];
      assert MovesOf(init, Flatten(st)) by {
        forall i | 0 <= i < |init| ensures init[i].0 in Flatten(st) {
          assert init[i] == ms[i];
        }
      }
      ApplyMovesKeepsPartition(st, init);
      ApplyMovesUnique(st, init);
      var mid := ApplyMoves(st, init);
      assert ms[|ms| - 1].0 in multiset(Flatten(mid));
      MoveKeepsPartition(mid, ms[|ms| - 1].0, ms[|ms| - 1].1);
    }
  }

  /** Every name in `names` has a team. */
  predicate Known(teams: map<string, Team>, names: seq<string>)
  {
    forall t :: t in names ==> t in teams
  }

  /** Every bucket's names have teams. */
  predicate AllKnown(teams: map<string, Team>, st: Buckets)
  {
    forall i :: 0 <= i < |st| ==> Known(teams, st[i].1)
  }

  lemma AllKnownPrefix(teams: map<string, Team>, st: Buckets, n: nat)
    requires AllKnown(teams, st) && n <= |st|
    ensures AllKnown(teams, st[..n])
  {
    assert forall i :: 0 <= i < n ==> st[..n][i] == st[i];
  }

  /** A team of a bucket is one of the teams. */
  lemma {:induction false} InFlatten(st: Buckets, i: nat, t: string)
    requires i < |st| && t in st[i].1
    ensures t in Flatten(st)
  {
    if i > 0 {
      InFlatten(st[1..], i - 1, t);
    }
  }

  /** Every bucket's names have teams when all the standings' names do. */
  lemma KnownBuckets(teams: map<string, Team>, st: Buckets)
    requires Known(teams, Flatten(st))
    ensures AllKnown(teams, st)
  {
    forall i, t | 0 <= i < |st| && t in st[i].1 ensures t in teams {
      InFlatten(st, i, t);
    }
  }

  /** The tiebreak criteria: LEC's two passes and LCS's one. */
  datatype Rule = LecHeadToHead | LecSecondHalf | LcsHeadToHead

  /** `teams_copy = copy.copy(teams); teams_copy.pop(i)`: the other teams of the bucket. */
  function Without(ts: seq<string>, i: nat): (r: seq<string>)
    requires i < |ts|
    ensures |r| == |ts| - 1
    ensures multiset(r) == multiset(ts) - multiset{ts[i]}
  {
    MultisetRemoveAt(ts, i);
    ts[..i] + ts[i + 1..]
  }

  /** A team's tiebreak score against the other teams of its bucket. */
  function Score(rule: Rule, team: Team, others: seq<string>): int
  {
    if rule == LecSecondHalf then CountWins(SecondHalfMatches(team.matches), team.name)
    else WinsAgainst(team.matches, team.name, others)
  }

  /** The score of the `i`-th team of a bucket. */
  function ScoreAt(rule: Rule, teams: map<string, Team>, bucket: seq<string>, i: nat): int
    requires i < |bucket| && bucket[i] in teams
  {
    Score(rule, teams[bucket[i]], Without(bucket, i))
  }

  /** The `team_wins` list of one bucket: each team with its score, in bucket order. */
  function Scores(rule: Rule, teams: map<string, Team>, bucket: seq<string>): seq<(string, int)>
    requires Known(teams, bucket)
  {
    seq(|bucket|, i requires 0 <= i < |bucket| => (bucket[i], ScoreAt(rule, teams, bucket, i)))
  }

  /** One more score of a bucket, in order. */
  lemma ScoresSnoc(rule: Rule, teams: map<string, Team>, bucket: seq<string>, i: nat, sofar: seq<(string, int)>, wins: int)
    requires Known(teams, bucket) && i < |bucket|
    requires sofar == Scores(rule, teams, bucket)[..i]
    requires wins == ScoreAt(rule, teams, bucket, i)
    ensures sofar + [(bucket[i], wins)] == Scores(rule, teams, bucket)[..i + 1]
  {
    PrefixSnoc(Scores(rule, teams, bucket), i);
  }

  /** `len(teams) > 1` for LEC, `tied_teams in [3]` for LCS. */
  predicate Eligible(rule: Rule, bucket: seq<string>)
  {
    if rule == LcsHeadToHead then |bucket| == 3 else |bucket| > 1
  }

  /** The placing dict of one bucket: offsets from 0, by `place_teams` or `place_teams_lcs`. */
  function Placement(rule: Rule, teams: map<string, Team>, bucket: seq<string>): Buckets
    requires Known(teams, bucket)
  {
    var groups := SortedGroups(ByWins(Scores(rule, teams, bucket)));
    if rule == LcsHeadToHead then PlaceLcsGroups(groups, [], 0, |bucket|) else PlaceGroups(groups, [], 0)
  }

  /**
   * The moves for one placing entry: every team goes to `standing + placing`,
   * and nobody moves for placing 0.
   */
  function GroupMoves(ts: seq<string>, placing: int, standing: int): (ms: Moves)
    ensures placing == 0 ==> ms == []
    ensures placing != 0 ==> |ms| == |ts|
  {
    if ts == [] || placing == 0 then []
    else GroupMoves(ts[..|ts| - 1], placing, standing) + [(ts[|ts| - 1], standing + placing)]
  }

  /** Every team of a non-zero placing entry goes to `standing + placing`, in order. */
  lemma {:induction false} GroupMovesShape(ts: seq<string>, placing: int, standing: int)
    requires placing != 0
    ensures forall i :: 0 <= i < |ts| ==> GroupMoves(ts, placing, standing)[i] == (ts[i], standing + placing)
  {
    if ts != [] {
      GroupMovesShape(ts[..|ts| - 1], placing, standing);
    }
  }

  /** The teams `done` of a placing entry have been moved, in order. */
  ghost predicate GroupApplied(start: Buckets, now: Buckets, done: seq<string>, placing: int, standing: int)
  {
    now == ApplyMoves(start, GroupMoves(done, placing, standing))
  }

  /** One more team of a placing entry: one more move. */
  lemma MoveGroupStep(start: Buckets, done: seq<string>, t: string, placing: int, standing: int, before: Buckets, after: Buckets)
    requires placing != 0
    requires GroupApplied(start, before, done, placing, standing)
    requires after == Move(before, t, standing + placing)
    ensures GroupApplied(start, after, done + [t], placing, standing)
  {
    assert (done + [t])[..|done|] == done;
    ApplyMovesSnoc(start, GroupMoves(done, placing, standing), t, standing + placing);
  }

  /** A reset followed by a bucket step is a move. */
  lemma MoveIs(before: Buckets, reset: Buckets, after: Buckets, t: string, r: int)
    requires reset == ResetStanding(before, t)
    requires after == AddToBucket(reset, r, t)
    ensures after == Move(before, t, r)
  {
  }

  /** The moves for a whole placing dict, entry after entry. */
  function PlacingMoves(placing: Buckets, standing: int): Moves
  {
    if placing == [] then []
    else
      var last := placing[|placing| - 1];
      PlacingMoves(placing[..|placing| - 1], standing) + GroupMoves(last.1, last.0, standing)
  }

  /** The moves for one bucket of the snapshot. */
  function BucketMoves(rule: Rule, teams: map<string, Team>, standing: int, bucket: seq<string>): Moves
    requires Known(teams, bucket)
  {
    if Eligible(rule, bucket) then PlacingMoves(Placement(rule, teams, bucket), standing) else []
  }

  /** The moves of a whole pass over the snapshot, bucket after bucket. */
  function PassMoves(rule: Rule, teams: map<string, Team>, snapshot: Buckets): Moves
    requires AllKnown(teams, snapshot)
  {
    if snapshot == [] then []
    else
      var last := snapshot[|snapshot| - 1];
      PassMoves(rule, teams, snapshot[..|snapshot| - 1]) + BucketMoves(rule, teams, last.0, last.1)
  }

  /** One more bucket of the snapshot: its moves follow the earlier buckets' moves. */
  lemma PassStep(rule: Rule, teams: map<string, Team>, snapshot: Buckets, i: nat, before: Buckets)
    requires i < |snapshot| && AllKnown(teams, snapshot)
    requires before == ApplyMoves(snapshot, PassMoves(rule, teams, snapshot[..i]))
    ensures ApplyMoves(snapshot, PassMoves(rule, teams, snapshot[..i + 1])) ==
      ApplyMoves(before, BucketMoves(rule, teams, snapshot[i].0, snapshot[i].1))
  {
    AllKnownPrefix(teams, snapshot, i + 1);
    PassMovesSnoc(rule, teams, snapshot[..i + 1]);
    PrefixOfPrefix(snapshot, i, i + 1);
    ApplyMovesConcat(snapshot, PassMoves(rule, teams, snapshot[..i]), BucketMoves(rule, teams, snapshot[i].0, snapshot[i].1));
  }

  lemma PassMovesSnoc(rule: Rule, teams: map<string, Team>, snapshot: Buckets)
    requires snapshot != [] && AllKnown(teams, snapshot)
    ensures var n := |snapshot| - 1;
      AllKnown(teams, snapshot[..n]) && Known(teams, snapshot[n].1) &&
      PassMoves(rule, teams, snapshot) == PassMoves(rule, teams, snapshot[..n]) + BucketMoves(rule, teams, snapshot[n].0, snapshot[n].1)
  {
    AllKnownPrefix(teams, snapshot, |snapshot| - 1);
  }

  /** The standings after one pass. */
  function Pass(rule: Rule, teams: map<string, Team>, st: Buckets): Buckets
    requires Known(teams, Flatten(st))
  {
    KnownBuckets(teams, st);
    ApplyMoves(st, PassMoves(rule, teams, st))
  }

  /** Moves of `a` and of `b` within `names` make moves within `names`. */
  lemma MovesOfConcat(a: Moves, b: Moves, names: seq<string>)
    requires MovesOf(a, names) && MovesOf(b, names)
    ensures MovesOf(a + b, names)
  {
    forall i | 0 <= i < |a + b| ensures (a + b)[i].0 in names {
      if i >= |a| {
        assert (a + b)[i] == b[i - |a|];
      }
    }
  }

  /** Moves within `names` are within any sequence holding those names. */
  lemma MovesOfWider(ms: Moves, names: seq<string>, wider: seq<string>)
    requires MovesOf(ms, names) && multiset(names) <= multiset(wider)
    ensures MovesOf(ms, wider)
  {
    forall i | 0 <= i < |ms| ensures ms[i].0 in wider {
      assert ms[i].0 in multiset(names);
    }
  }

  /** A placing dict moves only its own teams. */
  lemma {:induction false} PlacingMovesOf(placing: Buckets, standing: int)
    ensures MovesOf(PlacingMoves(placing, standing), Flatten(placing))
  {
    if placing != [] {
      var n := |placing| - 1;
      var init := placing[..n];
      PlacingMovesOf(init, standing);
      assert placing == init + [placing[n]];
      FlattenAppend(init, placing[n].0, placing[n].1);
      MovesOfWider(PlacingMoves(init, standing), Flatten(init), Flatten(placing));
      if placing[n].0 != 0 {
        GroupMovesShape(placing[n].1, placing[n].0, standing);
      }
      MovesOfWider(GroupMoves(placing[n].1, placing[n].0, standing), placing[n].1, Flatten(placing));
      MovesOfConcat(PlacingMoves(init, standing), GroupMoves(placing[n].1, placing[n].0, standing), Flatten(placing));
    }
  }

  /** The scores list names the bucket's teams, in order. */
  lemma ScoresKeys(rule: Rule, teams: map<string, Team>, bucket: seq<string>)
    requires Known(teams, bucket)
    ensures Keys(Scores(rule, teams, bucket)) == bucket
  {
  }

  /** The score groups hold the bucket's teams, each group non-empty and with a distinct score. */
  lemma ScoreGroups(rule: Rule, teams: map<string, Team>, bucket: seq<string>)
    requires Known(teams, bucket)
    ensures multiset(Flatten(SortedGroups(ByWins(Scores(rule, teams, bucket))))) == multiset(bucket)
    ensures NoEmptyBucket(ByWins(Scores(rule, teams, bucket)))
  {
    var pairs := Scores(rule, teams, bucket);
    ByWinsShape(pairs);
    ByWinsTeams(pairs);
    ScoresKeys(rule, teams, bucket);
    FlattenPermutation(SortedGroups(ByWins(pairs)), ByWins(pairs));
  }

  /** Placing `ts` within one group adds only teams of `ts`. */
  lemma {:induction false} LcsGroupTeams(ts: seq<string>, out: Buckets, place: int, next: int, wins: int, tied: int)
    requires KeysUnique(out)
    ensures KeysUnique(LcsGroup(ts, out, place, next, wins, tied).0)
    ensures multiset(Flatten(LcsGroup(ts, out, place, next, wins, tied).0)) <= multiset(Flatten(out)) + multiset(ts)
  {
    if ts != [] {
      var out1 := EnsureBucket(out, place);
      EnsureBucketTeams(out, place);
      var out2 := AddToBucket(out1, place, ts[0]);
      AddToBucketTeams(out1, place, ts[0]);
      AddToBucketUnique(out1, place, ts[0]);
      var res := LcsGroup(ts, out, place, next, wins, tied);
      if Decisive(wins, tied) {
        LcsGroupTeams(ts[1..], out2, place, next + 1, wins, tied);
        WithinStep(multiset(Flatten(res.0)), multiset(Flatten(out2)), multiset(Flatten(out)), ts);
      } else if tied == 3 && next > 0 {
        LcsGroupTeams(ts[1..], out2, place, next, wins, tied);
        WithinStep(multiset(Flatten(res.0)), multiset(Flatten(out2)), multiset(Flatten(out)), ts);
      } else if tied != 3 {
        LcsGroupTeams(ts[1..], out1, place, next, wins, tied);
        WithinStep(multiset(Flatten(res.0)), multiset(Flatten(out1)), multiset(Flatten(out)), ts);
      }
    }
  }

  /** What is within `b` and the tail of `ts`, with `b` the start plus at most the head of `ts`, is within the start and `ts`. */
  lemma WithinStep(a: multiset<string>, b: multiset<string>, start: multiset<string>, ts: seq<string>)
    requires ts != [] && a <= b + multiset(ts[1..])
    requires b == start + multiset{ts[0]} || b == start
    ensures a <= start + multiset(ts)
  {
    assert ts == [ts[0]] + ts[1..];
  }

  /** Creating an empty bucket adds no team. */
  lemma EnsureBucketTeams(out: Buckets, place: int)
    requires KeysUnique(out)
    ensures KeysUnique(EnsureBucket(out, place))
    ensures multiset(Flatten(EnsureBucket(out, place))) == multiset(Flatten(out))
  {
    if Get(out, place).GetOr([]) == [] {
      var none: seq<string> := [];
      FlattenPut(out, place, none);
      PutUnique(out, place, none);
      assert multiset(Get(out, place).GetOr([])) == multiset(none);
      CancelUnion(multiset(Flatten(Put(out, place, none))), multiset(Flatten(out)), multiset(none));
    }
  }

  /** `place_teams_lcs` places only teams of the groups. */
  lemma {:induction false} LcsTeams(groups: seq<(int, seq<string>)>, out: Buckets, next: int, tied: int)
    requires KeysUnique(out)
    ensures multiset(Flatten(PlaceLcsGroups(groups, out, next, tied))) <= multiset(Flatten(out)) + multiset(Flatten(groups))
  {
    if groups != [] {
      var res := LcsGroup(groups[0].1, out, next, next, groups[0].0, tied);
      LcsGroupTeams(groups[0].1, out, next, next, groups[0].0, tied);
      PlaceLcsGroupsWith(groups, out, next, tied, res.0, res.1);
      LcsTeams(groups[1..], res.0, res.1, tied);
      assert Flatten(groups) == groups[0].1 + Flatten(groups[1..]);
    }
  }

  /** A bucket's placing holds only the bucket's teams. */
  lemma PlacementTeams(rule: Rule, teams: map<string, Team>, bucket: seq<string>)
    requires Known(teams, bucket)
    ensures multiset(Flatten(Placement(rule, teams, bucket))) <= multiset(bucket)
  {
    var groups := SortedGroups(ByWins(Scores(rule, teams, bucket)));
    ScoreGroups(rule, teams, bucket);
    if rule == LcsHeadToHead {
      LcsTeams(groups, [], 0, |bucket|);
    } else {
      PlaceTeamsSpec(ByWins(Scores(rule, teams, bucket)), 0);
    }
  }

  /** A pass moves only teams of the bucket they are in. */
  lemma BucketMovesOf(rule: Rule, teams: map<string, Team>, standing: int, bucket: seq<string>)
    requires Known(teams, bucket)
    ensures MovesOf(BucketMoves(rule, teams, standing, bucket), bucket)
  {
    if Eligible(rule, bucket) {
      var placing := Placement(rule, teams, bucket);
      PlacingMovesOf(placing, standing);
      PlacementTeams(rule, teams, bucket);
      MovesOfWider(PlacingMoves(placing, standing), Flatten(placing), bucket);
    }
  }

  /** A pass moves only teams of the snapshot. */
  lemma {:induction false} PassMovesOf(rule: Rule, teams: map<string, Team>, snapshot: Buckets)
    requires AllKnown(teams, snapshot)
    ensures MovesOf(PassMoves(rule, teams, snapshot), Flatten(snapshot))
  {
    if snapshot != [] {
      var n := |snapshot| - 1;
      var init := snapshot[..n];
      PassMovesOf(rule, teams, init);
      assert snapshot == init + [snapshot[n]];
      FlattenAppend(init, snapshot[n].0, snapshot[n].1);
      BucketMovesOf(rule, teams, snapshot[n].0, snapshot[n].1);
      MovesOfWider(PassMoves(rule, teams, init), Flatten(init), Flatten(snapshot));
      MovesOfWider(BucketMoves(rule, teams, snapshot[n].0, snapshot[n].1), snapshot[n].1, Flatten(snapshot));
      MovesOfConcat(PassMoves(rule, teams, init), BucketMoves(rule, teams, snapshot[n].0, snapshot[n].1), Flatten(snapshot));
    }
  }

  /**
   * A pass (reset, then set, for every moved team) keeps the same teams and
   * keeps a partition a partition.
   */
  lemma PassKeepsPartition(rule: Rule, teams: map<string, Team>, st: Buckets)
    requires KeysUnique(st) && Known(teams, Flatten(st))
    ensures multiset(Flatten(Pass(rule, teams, st))) == multiset(Flatten(st))
    ensures Partition(st) ==> Partition(Pass(rule, teams, st))
  {
    KnownBuckets(teams, st);
    PassMovesOf(rule, teams, st);
    ApplyMovesKeepsPartition(st, PassMoves(rule, teams, st));
  }

  /** After a pass every team in the standings still has a team record. */
  lemma PassKnown(rule: Rule, teams: map<string, Team>, st: Buckets)
    requires KeysUnique(st) && Known(teams, Flatten(st))
    ensures KeysUnique(Pass(rule, teams, st)) && Known(teams, Flatten(Pass(rule, teams, st)))
  {
    KnownBuckets(teams, st);
    ApplyMovesUnique(st, PassMoves(rule, teams, st));
    PassKeepsPartition(rule, teams, st);
    forall t | t in Flatten(Pass(rule, teams, st)) ensures t in teams {
      assert t in multiset(Flatten(st));
    }
  }

  /** Every move goes to a rank in `[lo, hi)`. */
  predicate RanksWithin(ms: Moves, lo: int, hi: int)
  {
    forall i :: 0 <= i < |ms| ==> lo <= ms[i].1 < hi
  }

  /** The moves of a placing dict whose non-empty, non-zero entries are placed in `[lo, hi)`. */
  lemma {:induction false} PlacingMovesWithin(placing: Buckets, standing: int, lo: int, hi: int)
    requires forall g :: 0 <= g < |placing| && placing[g].1 != [] && placing[g].0 != 0 ==> lo <= standing + placing[g].0 < hi
    ensures RanksWithin(PlacingMoves(placing, standing), lo, hi)
  {
    if placing != [] {
      var n := |placing| - 1;
      var init := placing[..n];
      assert forall g :: 0 <= g < |init| ==> init[g] == placing[g];
      PlacingMovesWithin(init, standing, lo, hi);
      var a: Moves := PlacingMoves(init, standing);
      var b: Moves := GroupMoves(placing[n].1, placing[n].0, standing);
      if placing[n].0 != 0 {
        GroupMovesShape(placing[n].1, placing[n].0, standing);
      }
      forall i | 0 <= i < |a + b| ensures lo <= (a + b)[i].1 < hi {
        if i >= |a| {
          assert (a + b)[i] == b[i - |a|];
        }
      }
    }
  }

  /**
   * In the LEC passes a moved team of a tied bucket at `standing` goes to
   * `standing + placing` with `1 <= placing < len(bucket)`: it stays below
   * the bucket's rank and above the next rank a bucket of that size leaves free.
   */
  lemma LecOffsets(rule: Rule, teams: map<string, Team>, standing: int, bucket: seq<string>)
    requires rule != LcsHeadToHead && Known(teams, bucket)
    ensures RanksWithin(BucketMoves(rule, teams, standing, bucket), standing + 1, standing + |bucket|)
  {
    if Eligible(rule, bucket) {
      var byWins := ByWins(Scores(rule, teams, bucket));
      var groups := SortedGroups(byWins);
      var r := Placement(rule, teams, bucket);
      ScoreGroups(rule, teams, bucket);
      PlaceTeamsSpec(byWins, 0);
      assert |Flatten(groups)| == |bucket| by {
        assert |multiset(Flatten(groups))| == |multiset(bucket)|;
      }
      forall g | 0 <= g < |r| && r[g].1 != [] && r[g].0 != 0
        ensures standing + 1 <= standing + r[g].0 < standing + |bucket|
      {
        RankingAt(groups, 0, g);
      }
      PlacingMovesWithin(r, standing, standing + 1, standing + |bucket|);
    }
  }

  /**
   * Which teams an LEC pass moves, and where. For a tied bucket at
   * `standing`, with `groups` its score groups best first: the best group
   * keeps its rank and makes no move; every other team moves exactly once,
   * a team of group `g` to `standing` plus the number of teams in the
   * groups above it (competition ranking within the tie).
   */
  predicate LecMovedBelow(ms: Moves, groups: seq<(int, seq<string>)>, bucket: seq<string>, standing: int)
  {
    && groups != []
    && Keys(ms) == Flatten(groups[1..])
    && multiset(Keys(ms)) == multiset(bucket) - multiset(groups[0].1)
    && forall g, t :: 0 < g < |groups| && t in groups[g].1 ==> (t, standing + |Flatten(groups[..g])|) in ms
  }

  lemma LecMoves(rule: Rule, teams: map<string, Team>, standing: int, bucket: seq<string>)
    requires rule != LcsHeadToHead && Known(teams, bucket) && |bucket| > 1
    ensures LecMovedBelow(BucketMoves(rule, teams, standing, bucket), SortedGroups(ByWins(Scores(rule, teams, bucket))), bucket, standing)
  {
    var byWins := ByWins(Scores(rule, teams, bucket));
    var groups := SortedGroups(byWins);
    ScoreGroups(rule, teams, bucket);
    PlaceTeamsRanking(byWins, 0);
    assert BucketMoves(rule, teams, standing, bucket) == PlacingMoves(Ranking(groups, 0), standing);
    GroupsMovedBelow(byWins, groups, bucket, standing);
  }

  /** LecMoves on the score groups themselves. */
  lemma GroupsMovedBelow(byWins: Buckets, groups: seq<(int, seq<string>)>, bucket: seq<string>, standing: int)
    requires NoEmptyBucket(byWins) && groups == SortedGroups(byWins)
    requires multiset(Flatten(groups)) == multiset(bucket) && bucket != []
    ensures LecMovedBelow(PlacingMoves(Ranking(groups, 0), standing), groups, bucket, standing)
  {
    var r := Ranking(groups, 0);
    var ms := PlacingMoves(r, standing);
    assert groups != [] by {
      assert |multiset(Flatten(groups))| == |bucket| > 0;
    }
    LecRankingOffsets(byWins, groups, r);
    MovedKeys(groups, r, standing);
    MultisetRest(groups[0].1, Flatten(groups[1..]), bucket);
    MovedTargets(groups, r, standing);
  }

  /** The moved teams are those of the groups after the best one. */
  lemma MovedKeys(groups: seq<(int, seq<string>)>, r: Buckets, standing: int)
    requires groups != [] && r == Ranking(groups, 0)
    requires r != [] && r[0].0 == 0 && forall g :: 0 < g < |r| ==> r[g].0 != 0
    ensures Keys(PlacingMoves(r, standing)) == Flatten(groups[1..])
    ensures multiset(Flatten(groups)) == multiset(groups[0].1 + Flatten(groups[1..]))
  {
    PlacingMovesKeys(r, standing);
    RankingCons(groups, 0);
    RankingTeams(groups[1..], |groups[0].1|);
  }

  /** A team of group `g > 0` goes to `standing` plus the number of teams above its group. */
  lemma MovedTargets(groups: seq<(int, seq<string>)>, r: Buckets, standing: int)
    requires r == Ranking(groups, 0)
    requires forall g :: 0 < g < |r| ==> r[g].0 != 0
    ensures forall g, t :: 0 < g < |groups| && t in groups[g].1 ==> (t, standing + |Flatten(groups[..g])|) in PlacingMoves(r, standing)
  {
    forall g, t | 0 < g < |groups| && t in groups[g].1
      ensures (t, standing + |Flatten(groups[..g])|) in PlacingMoves(r, standing)
    {
      RankingAt(groups, 0, g);
      PlacingMovesTo(r, standing, g, t);
    }
  }

  /** The competition ranking of the groups from 0: the best group at offset 0, every other one at a non-zero offset. */
  lemma LecRankingOffsets(byWins: Buckets, groups: seq<(int, seq<string>)>, r: Buckets)
    requires NoEmptyBucket(byWins) && groups == SortedGroups(byWins) && groups != []
    requires r == Ranking(groups, 0)
    ensures r != [] && r[0].0 == 0
    ensures forall g :: 0 < g < |r| ==> r[g].0 != 0
  {
    RankingShapeHolds(groups, 0);
    assert groups[0] in multiset(byWins);
    forall g | 0 < g < |r| ensures r[g].0 != 0 {
      assert groups[..g] == [groups[0]] + groups[1..g];
      FlattenConcat([groups[0]], groups[1..g]);
      assert [groups[0]][1..] == [];
    }
  }

  /**
   * The moves of a placing dict whose first entry is at offset 0 and whose
   * other entries are not: the teams of the later entries, in order.
   */
  lemma {:induction false} PlacingMovesKeys(placing: Buckets, standing: int)
    requires placing != [] && placing[0].0 == 0
    requires forall g :: 0 < g < |placing| ==> placing[g].0 != 0
    ensures Keys(PlacingMoves(placing, standing)) == Flatten(placing[1..])
  {
    var n := |placing| - 1;
    var init := placing[..n];
    var b := GroupMoves(placing[n].1, placing[n].0, standing);
    if n == 0 {
      assert init == [] && placing[1..] == [];
    } else {
      assert forall g :: 0 < g < |init| ==> init[g] == placing[g];
      PlacingMovesKeys(init, standing);
      GroupMovesShape(placing[n].1, placing[n].0, standing);
      assert Keys(b) == placing[n].1;
      KeysConcat(PlacingMoves(init, standing), b);
      assert placing[1..] == init[1..] + [placing[n]];
      FlattenConcat(init[1..], [placing[n]]);
      assert [placing[n]][1..] == [];
    }
  }

  /** A team of a non-zero placing entry is moved to `standing` plus that placing. */
  lemma {:induction false} PlacingMovesTo(placing: Buckets, standing: int, g: nat, t: string)
    requires g < |placing| && placing[g].0 != 0 && t in placing[g].1
    ensures (t, standing + placing[g].0) in PlacingMoves(placing, standing)
  {
    var n := |placing| - 1;
    var init := placing[..n];
    var a := PlacingMoves(init, standing);
    var b := GroupMoves(placing[n].1, placing[n].0, standing);
    if g == n {
      GroupMovesShape(placing[n].1, placing[n].0, standing);
      var i :| 0 <= i < |placing[n].1| && placing[n].1[i] == t;
      assert (a + b)[|a| + i] == b[i];
    } else {
      assert init[g] == placing[g];
      PlacingMovesTo(init, standing, g, t);
      var i :| 0 <= i < |a| && a[i] == (t, standing + placing[g].0);
      assert (a + b)[i] == a[i];
    }
  }

  /** The LCS pass moves nobody when no bucket is a three-way tie. */
  lemma {:induction false} LcsOnlyTriples(teams: map<string, Team>, snapshot: Buckets)
    requires AllKnown(teams, snapshot)
    requires forall i :: 0 <= i < |snapshot| ==> |snapshot[i].1| != 3
    ensures PassMoves(LcsHeadToHead, teams, snapshot) == []
  {
    if snapshot != [] {
      LcsOnlyTriples(teams, snapshot[..|snapshot| - 1]);
    }
  }

  /** Some pair has score `w` exactly when some name has score `w`. */
  lemma {:induction false} NamesWithScored(pairs: seq<(string, int)>, w: int)
    ensures NamesWith(pairs, w) != [] <==> exists j :: 0 <= j < |pairs| && pairs[j].1 == w
  {
    if pairs != [] {
      var n := |pairs| - 1;
      NamesWithScored(pairs[..n], w);
      if pairs[n].1 != w {
        assert forall j :: 0 <= j < n ==> pairs[..n][j] == pairs[j];
      }
    }
  }

  /** The score groups have distinct scores. */
  lemma GroupsUnique(pairs: seq<(string, int)>)
    ensures KeysUnique(SortedGroups(ByWins(pairs)))
  {
    ByWinsShape(pairs);
    SortedUnique(ByWins(pairs));
  }

  /** Sorting a dict's items keeps its keys distinct. */
  lemma SortedUnique(bw: Buckets)
    requires KeysUnique(bw)
    ensures KeysUnique(SortedGroups(bw))
  {
    var groups := SortDesc(bw, GroupKey);
    assert groups == SortedGroups(bw);
    assert multiset(groups) == multiset(bw);
    UniqueAtMostOnce(bw);
    KeysPermutation(groups, bw);
    forall x ensures multiset(Keys(groups))[x] <= 1 {
      assert multiset(Keys(groups))[x] == multiset(Keys(bw))[x];
    }
    KeysAtMostOnce(groups);
  }

  /** Each score group's score is the score of some pair, and the group is not empty. */
  lemma GroupScored(pairs: seq<(string, int)>, g: nat)
    requires g < |SortedGroups(ByWins(pairs))|
    ensures SortedGroups(ByWins(pairs))[g].1 != []
    ensures exists j :: 0 <= j < |pairs| && pairs[j].1 == SortedGroups(ByWins(pairs))[g].0
  {
    var bw := ByWins(pairs);
    var groups := SortedGroups(bw);
    assert groups[g] in multiset(bw);
    var k :| 0 <= k < |bw| && bw[k] == groups[g];
    ByWinsShape(pairs);
    GetAt(bw, k);
    ByWinsGet(pairs, groups[g].0);
    NamesWithScored(pairs, groups[g].0);
  }

  /** The teams scoring `w` form a score group when one does. */
  lemma GroupOfScore(pairs: seq<(string, int)>, w: int)
    requires exists j :: 0 <= j < |pairs| && pairs[j].1 == w
    ensures exists g :: 0 <= g < |SortedGroups(ByWins(pairs))| && SortedGroups(ByWins(pairs))[g] == (w, NamesWith(pairs, w))
  {
    var bw := ByWins(pairs);
    NamesWithScored(pairs, w);
    ByWinsGet(pairs, w);
    ByWinsShape(pairs);
    assert w in Keys(bw);
    var k :| 0 <= k < |bw| && Keys(bw)[k] == w;
    GetAt(bw, k);
    assert bw[k] in multiset(SortedGroups(bw));
  }

  /**
   * When the best head-to-head score is 4, the first score group is the
   * teams with 4, and no other group has 4.
   */
  lemma TopGroupIsFour(pairs: seq<(string, int)>)
    requires exists j :: 0 <= j < |pairs| && pairs[j].1 == 4
    requires forall j :: 0 <= j < |pairs| ==> pairs[j].1 <= 4
    ensures SortedGroups(ByWins(pairs)) != []
    ensures SortedGroups(ByWins(pairs))[0] == (4, NamesWith(pairs, 4))
    ensures forall i :: 0 < i < |SortedGroups(ByWins(pairs))| ==> SortedGroups(ByWins(pairs))[i].0 != 4
  {
    var groups := SortedGroups(ByWins(pairs));
    GroupOfScore(pairs, 4);
    var g :| 0 <= g < |groups| && groups[g] == (4, NamesWith(pairs, 4));
    SortedDescFirst(groups, GroupKey, g);
    GroupScored(pairs, 0);
    GroupsUnique(pairs);
    KeysUniqueAt(groups);
    assert groups[0].0 == 4;
    assert g == 0;
  }

  /** The LCS placing gives nobody a non-zero placing when no team of the tie has 4 head-to-head wins. */
  lemma LcsNoFourNoMoves(teams: map<string, Team>, standing: int, bucket: seq<string>)
    requires Known(teams, bucket)
    requires forall i :: 0 <= i < |bucket| ==> ScoreAt(LcsHeadToHead, teams, bucket, i) != 4
    ensures BucketMoves(LcsHeadToHead, teams, standing, bucket) == []
  {
    if Eligible(LcsHeadToHead, bucket) {
      var pairs := Scores(LcsHeadToHead, teams, bucket);
      var groups := SortedGroups(ByWins(pairs));
      forall i | 0 <= i < |groups| ensures groups[i].1 != [] && groups[i].0 != 4 {
        GroupScored(pairs, i);
      }
      LcsNoFour(groups, []);
      var empty: Buckets := [];
      assert EnsureBucket(empty, 0) == [(0, [])];
      assert PlacingMoves([(0, [])], standing) == [];
    }
  }

  /**
   * In an LCS three-way tie where the best head-to-head record is 4 wins,
   * the teams with 4 keep their rank and every other team of the tie moves
   * to the rank just after them: `standing + k` for `k` teams with 4 wins.
   */
  lemma LcsTopFourMoves(teams: map<string, Team>, standing: int, bucket: seq<string>)
    requires Known(teams, bucket) && |bucket| == 3
    requires exists i :: 0 <= i < |bucket| && ScoreAt(LcsHeadToHead, teams, bucket, i) == 4
    requires forall i :: 0 <= i < |bucket| ==> ScoreAt(LcsHeadToHead, teams, bucket, i) <= 4
    ensures MovedAfter(BucketMoves(LcsHeadToHead, teams, standing, bucket), NamesWith(Scores(LcsHeadToHead, teams, bucket), 4), bucket, standing)
  {
    var top := NamesWith(Scores(LcsHeadToHead, teams, bucket), 4);
    var rest := LcsTopFourPlacement(teams, bucket);
    TopFourMoves(top, rest, standing);
    MovedAfterTop(rest, top, bucket, standing);
  }

  /** The teams of `bucket` other than `top` all move to `standing + len(top)`, and nobody else moves. */
  predicate MovedAfter(ms: Moves, top: seq<string>, bucket: seq<string>, standing: int)
  {
    && RanksWithin(ms, standing + |top|, standing + |top| + 1)
    && multiset(Keys(ms)) == multiset(bucket) - multiset(top)
  }

  lemma MovedAfterTop(rest: seq<string>, top: seq<string>, bucket: seq<string>, standing: int)
    requires top != [] && multiset(rest) == multiset(bucket) - multiset(top)
    ensures MovedAfter(GroupMoves(rest, |top|, standing), top, bucket, standing)
  {
    GroupMovesShape(rest, |top|, standing);
    assert Keys(GroupMoves(rest, |top|, standing)) == rest;
  }

  /** The placing of such a tie: the teams with 4 at 0, the `rest` at their number. */
  lemma LcsTopFourPlacement(teams: map<string, Team>, bucket: seq<string>) returns (rest: seq<string>)
    requires Known(teams, bucket) && |bucket| == 3
    requires exists i :: 0 <= i < |bucket| && ScoreAt(LcsHeadToHead, teams, bucket, i) == 4
    requires forall i :: 0 <= i < |bucket| ==> ScoreAt(LcsHeadToHead, teams, bucket, i) <= 4
    ensures var top := NamesWith(Scores(LcsHeadToHead, teams, bucket), 4);
      && top != []
      && Placement(LcsHeadToHead, teams, bucket) == [(0, top)] + (if rest == [] then [] else [(|top|, rest)])
      && multiset(rest) == multiset(bucket) - multiset(top)
  {
    var pairs := Scores(LcsHeadToHead, teams, bucket);
    var groups := SortedGroups(ByWins(pairs));
    TopFourPairs(teams, bucket);
    TopGroupIsFour(pairs);
    GroupScored(pairs, 0);
    rest := Flatten(groups[1..]);
    LcsTopFour(groups);
    assert Placement(LcsHeadToHead, teams, bucket) == PlaceLcsGroups(groups, [], 0, 3);
    ScoreGroups(LcsHeadToHead, teams, bucket);
    assert Flatten(groups) == groups[0].1 + rest;
    MultisetRest(groups[0].1, rest, bucket);
  }

  /** The head-to-head scores of such a tie, read off the score pairs. */
  lemma TopFourPairs(teams: map<string, Team>, bucket: seq<string>)
    requires Known(teams, bucket)
    requires exists i :: 0 <= i < |bucket| && ScoreAt(LcsHeadToHead, teams, bucket, i) == 4
    requires forall i :: 0 <= i < |bucket| ==> ScoreAt(LcsHeadToHead, teams, bucket, i) <= 4
    ensures var pairs := Scores(LcsHeadToHead, teams, bucket);
      && (exists j :: 0 <= j < |pairs| && pairs[j].1 == 4)
      && forall j :: 0 <= j < |pairs| ==> pairs[j].1 <= 4
  {
    var pairs := Scores(LcsHeadToHead, teams, bucket);
    var i :| 0 <= i < |bucket| && ScoreAt(LcsHeadToHead, teams, bucket, i) == 4;
    ScoreOf(LcsHeadToHead, teams, bucket, i);
    forall j | 0 <= j < |pairs| ensures pairs[j].1 <= 4 {
      ScoreOf(LcsHeadToHead, teams, bucket, j);
    }
  }

  lemma ScoreOf(rule: Rule, teams: map<string, Team>, bucket: seq<string>, j: nat)
    requires Known(teams, bucket) && j < |bucket|
    ensures j < |Scores(rule, teams, bucket)| && Scores(rule, teams, bucket)[j].1 == ScoreAt(rule, teams, bucket, j)
  {
  }

  lemma MultisetRest(a: seq<string>, b: seq<string>, c: seq<string>)
    requires multiset(a + b) == multiset(c)
    ensures multiset(b) == multiset(c) - multiset(a)
  {
    assert multiset(a + b) == multiset(a) + multiset(b);
  }

  /** The moves of the placing `{0: top, len(top): rest}`: all of `rest` to `standing + len(top)`. */
  lemma TopFourMoves(top: seq<string>, rest: seq<string>, standing: int)
    requires top != []
    ensures PlacingMoves([(0, top)] + (if rest == [] then [] else [(|top|, rest)]), standing) == GroupMoves(rest, |top|, standing)
  {
    var first: Buckets := [(0, top)];
    assert PlacingMoves(first, standing) == [];
    if rest != [] {
      var placing := first + [(|top|, rest)];
      assert placing[..1] == first;
    } else {
      assert first + [] == first;
    }
  }

  /** The league: its teams by name, and the bucketed standings. */
  class League {
    var teams: map<string, Team>
    var standings: Buckets

    /** A dict holds each rank once. */
    predicate Valid()
      reads this
    {
      KeysUnique(standings)
    }

    constructor (teams: map<string, Team>, standings: Buckets)
      requires KeysUnique(standings)
      ensures Valid() && this.teams == teams && this.standings == standings
    {
      this.teams := teams;
      this.standings := standings;
    }

    /**
     * `reset_standing_for_team`: in the first bucket holding the team, pop its
     * first occurrence and delete the bucket if that empties it.
     */
    method ResetStandingForTeam(teamToReset: string)
      requires Valid()
      modifies this
      ensures Valid() && teams == old(teams)
      ensures standings == ResetStanding(old(standings), teamToReset)
    {
      var st := standings;
      var i := 0;
      while i < |st|
        invariant i <= |st|
        invariant forall j :: 0 <= j < i ==> teamToReset !in st[j].1
      {
        var (standing, bucket) := st[i];
        if teamToReset in bucket {
          var index := IndexOf(bucket, teamToReset);
          var popped := bucket[..index] + bucket[index + 1..];
          PopAt(st, teamToReset, i, index);
          ResetUnique(st, teamToReset);
          var updated := Put(st, standing, popped);
          if popped == [] {
            updated := Del(updated, standing);
          }
          standings := updated;
          return;
        }
        i := i + 1;
      }
      ResetAbsentAt(st, teamToReset);
    }

    /** The commented `set_standing_for_team`: append the team to the bucket at `standing`. */
    method SetStandingForTeam(team: string, standing: int)
      requires Valid()
      modifies this
      ensures Valid() && teams == old(teams)
      ensures standings == AddToBucket(old(standings), standing, team)
    {
      AddToBucketUnique(standings, standing, team);
      if Get(standings, standing).GetOr([]) == [] {
        standings := Put(standings, standing, []);
      }
      var bucket := Get(standings, standing).value;
      PutPut(old(standings), standing, [], bucket + [team]);
      standings := Put(standings, standing, bucket + [team]);
    }

    /** The `team_wins` loop of a pass over one bucket. */
    method TeamScores(rule: Rule, bucket: seq<string>) returns (teamWins: seq<(string, int)>)
      requires Known(teams, bucket)
      ensures teamWins == Scores(rule, teams, bucket)
    {
      teamWins := [];
      for i := 0 to |bucket|
        invariant teamWins == Scores(rule, teams, bucket)[..i]
      {
        var wins := TeamScore(rule, bucket, i);
        ScoresSnoc(rule, teams, bucket, i, teamWins, wins);
        teamWins := teamWins + [(bucket[i], wins)];
      }
      PrefixAll(Scores(rule, teams, bucket));
    }

    /** The score of the i-th team of a bucket against the others, or in the second half. */
    method TeamScore(rule: Rule, bucket: seq<string>, i: nat) returns (wins: int)
      requires Known(teams, bucket) && i < |bucket|
      ensures wins == ScoreAt(rule, teams, bucket, i)
    {
      var team := bucket[i];
      var teamsCopy := bucket[..i] + bucket[i + 1..];
      if rule == LecSecondHalf {
        wins := WinsInSecondHalf(teams[team]);
      } else {
        wins := HeadToHeadWins(teams[team], teamsCopy);
      }
    }

    /** `for team in teams: if placing == 0: continue; reset; set`. */
    method MoveGroup(ts: seq<string>, placing: int, standing: int)
      requires Valid()
      modifies this
      ensures Valid() && teams == old(teams)
      ensures standings == ApplyMoves(old(standings), GroupMoves(ts, placing, standing))
    {
      if placing == 0 {
        return;
      }
      ghost var start := standings;
      for j := 0 to |ts|
        invariant Valid() && teams == old(teams)
        invariant GroupApplied(start, standings, ts[..j], placing, standing)
      {
        MoveGroupTeam(start, ts[..j], ts[j], placing, standing);
        PrefixSnoc(ts, j);
      }
      PrefixAll(ts);
    }

    /** The loop body of `MoveGroup`: the next team of the entry moves. */
    method MoveGroupTeam(ghost start: Buckets, ghost done: seq<string>, team: string, placing: int, standing: int)
      requires Valid() && placing != 0
      requires GroupApplied(start, standings, done, placing, standing)
      modifies this
      ensures Valid() && teams == old(teams)
      ensures GroupApplied(start, standings, done + [team], placing, standing)
    {
      ghost var before := standings;
      MoveTeam(team, standing + placing);
      MoveGroupStep(start, done, team, placing, standing, before, standings);
    }

    /** `self.reset_standing_for_team(team)` then `self.set_standing_for_team(team, r)`. */
    method MoveTeam(team: string, r: int)
      requires Valid()
      modifies this
      ensures Valid() && teams == old(teams)
      ensures standings == Move(old(standings), team, r)
    {
      ResetStandingForTeam(team);
      ghost var reset := standings;
      SetStandingForTeam(team, r);
      MoveIs(old(standings), reset, standings, team, r);
    }

    /** `for placing, teams in placing_dict.items()`, moving each entry's teams. */
    method MovePlacing(placing: Buckets, standing: int)
      requires Valid()
      modifies this
      ensures Valid() && teams == old(teams)
      ensures standings == ApplyMoves(old(standings), PlacingMoves(placing, standing))
    {
      for g := 0 to |placing|
        invariant Valid() && teams == old(teams)
        invariant standings == ApplyMoves(old(standings), PlacingMoves(placing[..g], standing))
      {
        assert placing[..g + 1][..g] == placing[..g];
        ghost var before := standings;
        var (offset, ts) := placing[g];
        MoveGroup(ts, offset, standing);
        ApplyMovesConcat(old(standings), PlacingMoves(placing[..g], standing), GroupMoves(ts, offset, standing));
      }
      assert placing[..|placing|] == placing;
    }

    /**
     * One tiebreak pass as `head_to_head` and `wins_in_second_half` run it:
     * over a deep copy of the standings, each eligible bucket is scored,
     * grouped by score and placed from 0, and every team with a non-zero
     * placing is moved to its bucket's rank plus that placing.
     */
    method TiebreakPass(rule: Rule)
      requires Valid() && Known(teams, Flatten(standings))
      modifies this
      ensures Valid() && teams == old(teams)
      ensures standings == Pass(rule, teams, old(standings))
    {
      var snapshot := standings;
      KnownBuckets(teams, snapshot);
      for i := 0 to |snapshot|
        invariant Valid() && teams == old(teams)
        invariant standings == ApplyMoves(snapshot, PassMoves(rule, teams, snapshot[..i]))
      {
        var (standing, bucket) := snapshot[i];
        ghost var before := standings;
        var eligible := if rule == LcsHeadToHead then |bucket| == 3 else |bucket| > 1;
        if eligible {
          var teamWins := TeamScores(rule, bucket);
          var byWins := TeamsByWins(teamWins);
          var placing: Buckets;
          if rule == LcsHeadToHead {
            placing := PlaceTeamsLcs(byWins, [], |bucket|, 0);
          } else {
            placing := PlaceTeams(byWins, [], 0);
          }
          assert placing == Placement(rule, teams, bucket);
          MovePlacing(placing, standing);
        }
        assert standings == ApplyMoves(before, BucketMoves(rule, teams, standing, bucket));
        PassStep(rule, teams, snapshot, i, before);
      }
      assert snapshot[..|snapshot|] == snapshot;
    }

    /** `LEC.head_to_head`. */
    method LecHeadToHeadPass()
      requires Valid() && Known(teams, Flatten(standings))
      modifies this
      ensures Valid() && teams == old(teams)
      ensures standings == Pass(LecHeadToHead, teams, old(standings))
    {
      TiebreakPass(LecHeadToHead);
    }

    /** `LEC.wins_in_second_half`. */
    method LecSecondHalfPass()
      requires Valid() && Known(teams, Flatten(standings))
      modifies this
      ensures Valid() && teams == old(teams)
      ensures standings == Pass(LecSecondHalf, teams, old(standings))
    {
      TiebreakPass(LecSecondHalf);
    }

    /** `LEC.tiebraker`: the whole head-to-head pass, then the second-half pass on its result. */
    method LecTiebreaker()
      requires Valid() && Known(teams, Flatten(standings))
      modifies this
      ensures Valid() && teams == old(teams)
      ensures standings == LecStandings(teams, old(standings))
    {
      LecHeadToHeadPass();
      PassKnown(LecHeadToHead, teams, old(standings));
      LecSecondHalfPass();
    }

    /** `LCS.head_to_head`, which is all of `LCS.tiebraker`. */
    method LcsTiebreaker()
      requires Valid() && Known(teams, Flatten(standings))
      modifies this
      ensures Valid() && teams == old(teams)
      ensures standings == Pass(LcsHeadToHead, teams, old(standings))
    {
      TiebreakPass(LcsHeadToHead);
    }
  }

  /** The standings after the LEC tiebreaker: the second-half pass over the head-to-head result. */
  function LecStandings(teams: map<string, Team>, st: Buckets): Buckets
    requires KeysUnique(st) && Known(teams, Flatten(st))
  {
    PassKnown(LecHeadToHead, teams, st);
    Pass(LecSecondHalf, teams, Pass(LecHeadToHead, teams, st))
  }

  /** The LEC tiebreaker keeps the same teams and keeps a partition a partition. */
  lemma LecKeepsPartition(teams: map<string, Team>, st: Buckets)
    requires KeysUnique(st) && Known(teams, Flatten(st))
    ensures multiset(Flatten(LecStandings(teams, st))) == multiset(Flatten(st))
    ensures Partition(st) ==> Partition(LecStandings(teams, st))
  {
    PassKnown(LecHeadToHead, teams, st);
    PassKeepsPartition(LecHeadToHead, teams, st);
    PassKeepsPartition(LecSecondHalf, teams, Pass(LecHeadToHead, teams, st));
  }

  /**
   * Popping the first `t` at `index` of the first bucket holding it, then
   * deleting that bucket if it is empty, is `ResetStanding`.
   */
  lemma PopAt(st: Buckets, t: string, i: nat, index: nat)
    requires KeysUnique(st) && i < |st| && index < |st[i].1|
    requires st[i].1[index] == t && t !in st[i].1[..index]
    requires forall j :: 0 <= j < i ==> t !in st[j].1
    ensures var popped := st[i].1[..index] + st[i].1[index + 1..];
      var put := Put(st, st[i].0, popped);
      ResetStanding(st, t) == if popped == [] then Del(put, st[i].0) else put
  {
    var (standing, bucket) := st[i];
    var popped := bucket[..index] + bucket[index + 1..];
    RemoveFirstAt(bucket, t, index);
    ResetAt(st, t, i);
    PutPresent(st, i, popped);
    if popped == [] {
      PutUnique(st, standing, popped);
      DelPresent(st[i := (standing, popped)], i);
      DropUpdated(st, i, (standing, popped));
    } else {
      UpdateAsConcat(st, i, (standing, popped));
    }
  }

  /** Replacing position `i`, written as concatenation. */
  lemma UpdateAsConcat<T>(s: seq<T>, i: nat, x: T)
    requires i < |s|
    ensures s[i := x] == s[..i] + [x] + s[i + 1..]
  {
  }

  /** Dropping a replaced position drops the original one. */
  lemma DropUpdated<T>(s: seq<T>, i: nat, x: T)
    requires i < |s|
    ensures s[i := x][..i] + s[i := x][i + 1..] == s[..i] + s[i + 1..]
  {
    assert s[i := x][..i] == s[..i];
    assert s[i := x][i + 1..] == s[i + 1..];
  }

  /** A team in no bucket is not among the teams, so there is nothing to reset. */
  lemma {:induction false} ResetAbsentAt(st: Buckets, t: string)
    requires forall j :: 0 <= j < |st| ==> t !in st[j].1
    ensures t !in Flatten(st) && ResetStanding(st, t) == st
  {
    if st != [] {
      assert t !in st[0].1;
      ResetAbsentAt(st[1..], t);
      assert ([st[0]] + ResetStanding(st[1..], t)) == st;
    }
  }
}
