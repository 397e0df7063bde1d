/**
 * The scenario engine of leagueprobs/possibility.py, as values: the split of
 * the matches into finished and upcoming ones, the enumeration of outcome
 * vectors, the result an outcome bit gives a match, the per-scenario tally of
 * ranks and the fold of tallies into the aggregate.
 */
module Outcomes {
  import opened Wrappers
  import opened OrderedDicts
  import opened Matches
  import opened Standings

  // ---------------------------------------------------------------------
  // Finished and upcoming matches
  // ---------------------------------------------------------------------

  /** The matches whose result is truthy, in input order. */
  function FinishedMatches(ms: seq<Match>): seq<Match>
  {
    if ms == [] then []
    else
      var last := ms[|ms| - 1];
      FinishedMatches(ms[..|ms| - 1]) + (if last.result.Some? then [last] else [])
  }

  /** The matches whose result is falsy, in input order. */
  function UpcomingMatches(ms: seq<Match>): seq<Match>
  {
    if ms == [] then []
    else
      var last := ms[|ms| - 1];
      UpcomingMatches(ms[..|ms| - 1]) + (if last.result.None? then [last] else [])
  }

  /** A match is finished exactly when it is played, and upcoming exactly when it is not. */
  lemma {:induction false} SplitMembers(ms: seq<Match>, m: Match)
    ensures m in FinishedMatches(ms) <==> m in ms && m.result.Some?
    ensures m in UpcomingMatches(ms) <==> m in ms && m.result.None?
  {
    if ms != [] {
      var init := ms[..|ms| - 1];
      SplitMembers(init, m);
      assert ms == init + [ms[|ms| - 1]];
    }
  }

  /** Both filters keep input order: they distribute over concatenation. */
  lemma {:induction false} SplitConcat(a: seq<Match>, b: seq<Match>)
    ensures FinishedMatches(a + b) == FinishedMatches(a) + FinishedMatches(b)
    ensures UpcomingMatches(a + b) == UpcomingMatches(a) + UpcomingMatches(b)
  {
    if b == [] {
      assert a + b == a;
    } else {
      var init := b[..|b| - 1];
      assert (a + b)[..|a + b| - 1] == a + init;
      assert (a + b)[|a + b| - 1] == b[|b| - 1];
      SplitConcat(a, init);
    }
  }

  /** Together the two lists hold every match exactly as often as the input does. */
  lemma {:induction false} SplitPartition(ms: seq<Match>)
    ensures multiset(FinishedMatches(ms)) + multiset(UpcomingMatches(ms)) == multiset(ms)
  {
    if ms != [] {
      var init := ms[..|ms| - 1];
      var last := ms[|ms| - 1];
      SplitPartition(init);
      MultisetSnoc(ms);
      if last.result.Some? {
        assert FinishedMatches(ms) == FinishedMatches(init) + [last];
        MultisetSnoc(FinishedMatches(ms));
      } else {
        assert UpcomingMatches(ms) == UpcomingMatches(init) + [last];
        MultisetSnoc(UpcomingMatches(ms));
      }
    }
  }

  lemma MultisetSnoc<T>(s: seq<T>)
    requires s != []
    ensures multiset(s) == multiset(s[..|s| - 1]) + multiset{s[|s| - 1]}
  {
    assert s == s[..|s| - 1] + [s[|s| - 1]];
  }

  // ---------------------------------------------------------------------
  // Outcome vectors
  // ---------------------------------------------------------------------

  function Pow2(n: nat): nat
  {
    if n == 0 then 1 else 2 * Pow2(n - 1)
  }

  predicate IsBits(v: seq<int>)
  {
    forall i :: 0 <= i < |v| ==> v[i] == 0 || v[i] == 1
  }

  /** Every vector of `vs` with `b` put in front. */
  function Prefixed(b: int, vs: seq<seq<int>>): (r: seq<seq<int>>)
    ensures |r| == |vs|
  {
    seq(|vs|, i requires 0 <= i < |vs| => [b] + vs[i])
  }

  lemma PrefixedAt(b: int, vs: seq<seq<int>>, i: nat)
    requires i < |vs|
    ensures Prefixed(b, vs)[i] == [b] + vs[i]
  {
  }

  /**
   * `itertools.product([0, 1], repeat=n)`, in its order: the last position
   * varies fastest.
   */
  function Product(n: nat): (ps: seq<seq<int>>)
    ensures |ps| == Pow2(n)
  {
    if n == 0 then [[]] else Prefixed(0, Product(n - 1)) + Prefixed(1, Product(n - 1))
  }

  /** Every vector of the enumeration has length n and only 0/1 entries. */
  lemma {:induction false} ProductShape(n: nat, k: nat)
    requires k < Pow2(n)
    ensures |Product(n)[k]| == n && IsBits(Product(n)[k])
  {
    if n > 0 {
      var h := Pow2(n - 1);
      ProductAt(n, k);
      var w := if k < h then Product(n - 1)[k] else Product(n - 1)[k - h];
      ProductShape(n - 1, if k < h then k else k - h);
      assert Product(n)[k] == [if k < h then 0 else 1] + w;
    }
  }

  /** The number a 0/1 vector spells in binary, most significant bit first. */
  function Value(v: seq<int>): int
  {
    if v == [] then 0 else (if v[0] == 1 then Pow2(|v| - 1) else 0) + Value(v[1..])
  }

  /** The k-th vector of the enumeration is k written in n binary digits. */
  lemma {:induction false} ProductValue(n: nat, k: nat)
    requires k < Pow2(n)
    ensures Value(Product(n)[k]) == k
  {
    if n > 0 {
      var h := Pow2(n - 1);
      if k < h {
        ProductValue(n - 1, k);
        ProductShape(n - 1, k);
        ProductAt(n, k);
        ValueCons(0, Product(n - 1)[k]);
      } else {
        ProductValue(n - 1, k - h);
        ProductShape(n - 1, k - h);
        ProductAt(n, k);
        ValueCons(1, Product(n - 1)[k - h]);
      }
    }
  }

  /** The first half of the enumeration starts with 0, the second with 1. */
  lemma ProductAt(n: nat, k: nat)
    requires 0 < n && k < Pow2(n)
    ensures k < Pow2(n - 1) ==> Product(n)[k] == [0] + Product(n - 1)[k]
    ensures k >= Pow2(n - 1) ==> Product(n)[k] == [1] + Product(n - 1)[k - Pow2(n - 1)]
  {
    var h := Pow2(n - 1);
    if k < h {
      PrefixedAt(0, Product(n - 1), k);
    } else {
      PrefixedAt(1, Product(n - 1), k - h);
    }
  }

  lemma ValueCons(b: int, w: seq<int>)
    ensures Value([b] + w) == (if b == 1 then Pow2(|w|) else 0) + Value(w)
  {
    assert ([b] + w)[1..] == w;
  }

  /** The enumeration never yields the same vector twice. */
  lemma ProductDistinct(n: nat, i: nat, j: nat)
    requires i < j < Pow2(n)
    ensures Product(n)[i] != Product(n)[j]
  {
    ProductValue(n, i);
    ProductValue(n, j);
  }

  /** Every 0/1 vector of length n is yielded, at the index its binary value names. */
  lemma {:induction false} ProductComplete(v: seq<int>)
    requires IsBits(v)
    ensures 0 <= Value(v) < Pow2(|v|)
    ensures Product(|v|)[Value(v)] == v
  {
    if v != [] {
      var tail := v[1..];
      BitsTail(v);
      ProductComplete(tail);
      if v[0] == 0 {
        CompleteZero(v, tail);
      } else {
        ConsHead(v, tail);
        CompleteOne(tail);
      }
    }
  }

  lemma BitsTail(v: seq<int>)
    requires v != [] && IsBits(v)
    ensures IsBits(v[1..])
  {
    forall i | 0 <= i < |v| - 1 ensures v[1..][i] == 0 || v[1..][i] == 1 {
      assert v[1..][i] == v[i + 1];
    }
  }

  /** A vector starting with 0 sits in the first half, at its tail's place. */
  lemma CompleteZero(v: seq<int>, tail: seq<int>)
    requires v != [] && v[0] == 0 && tail == v[1..]
    requires 0 <= Value(tail) < Pow2(|tail|) && Product(|tail|)[Value(tail)] == tail
    ensures 0 <= Value(v) < Pow2(|v|)
    ensures Product(|v|)[Value(v)] == v
  {
    var n := |v|;
    var j := Value(tail);
    ConsHead(v, tail);
    ValueCons(0, tail);
    ProductAt(n, j);
  }

  /** A vector starting with 1 sits in the second half, at its tail's place. */
  lemma CompleteOne(tail: seq<int>)
    requires 0 <= Value(tail) < Pow2(|tail|) && Product(|tail|)[Value(tail)] == tail
    ensures 0 <= Value([1] + tail) < Pow2(|tail| + 1)
    ensures Product(|tail| + 1)[Value([1] + tail)] == [1] + tail
  {
    var j := Value(tail);
    var h := Pow2(|tail|);
    ValueCons(1, tail);
    assert Value([1] + tail) == h + j;
    SecondHalf(|tail|, j);
    assert Product(|tail| + 1)[h + j] == [1] + tail;
  }

  lemma ConsHead(v: seq<int>, tail: seq<int>)
    requires v != [] && tail == v[1..]
    ensures v == [v[0]] + tail
  {
  }

  /** The second half of the enumeration is the whole smaller one behind a 1. */
  lemma SecondHalf(m: nat, j: nat)
    requires j < Pow2(m)
    ensures Pow2(m) + j < Pow2(m + 1)
    ensures Product(m + 1)[Pow2(m) + j] == [1] + Product(m)[j]
  {
    ProductAt(m + 1, Pow2(m) + j);
  }

  // ---------------------------------------------------------------------
  // Setting outcomes
  // ---------------------------------------------------------------------

  /** The result a bit gives an upcoming match: `(1, 0)` for 1, `(0, 1)` for anything else. */
  function WithOutcome(m: Match, bit: int): (r: Match)
    ensures r.teams == m.teams && r.week == m.week
    ensures r.result.Some?
    ensures Winner(r) == Some(if bit == 1 then m.teams.0 else m.teams.1)
    ensures Loser(r) == Some(if bit == 1 then m.teams.1 else m.teams.0)
  {
    m.(result := Some(if bit == 1 then (1, 0) else (0, 1)))
  }

  /** Every match given the outcome of the bit at its own index. */
  function WithOutcomes(ms: seq<Match>, bits: seq<int>): (r: seq<Match>)
    requires |ms| <= |bits|
    ensures |r| == |ms|
    ensures forall i :: 0 <= i < |ms| ==> r[i] == WithOutcome(ms[i], bits[i])
  {
    seq(|ms|, i requires 0 <= i < |ms| => WithOutcome(ms[i], bits[i]))
  }

  /** Once the upcoming matches get their outcomes, no match of the scenario is upcoming any more. */
  lemma ScenarioAllPlayed(ms: seq<Match>, bits: seq<int>)
    requires |UpcomingMatches(ms)| <= |bits|
    ensures UpcomingMatches(FinishedMatches(ms) + WithOutcomes(UpcomingMatches(ms), bits)) == []
  {
    var f := FinishedMatches(ms);
    var w := WithOutcomes(UpcomingMatches(ms), bits);
    SplitConcat(f, w);
    FinishedAllPlayed(ms);
    NoneUpcoming(w);
  }

  lemma {:induction false} FinishedAllPlayed(ms: seq<Match>)
    ensures UpcomingMatches(FinishedMatches(ms)) == []
  {
    if ms != [] {
      var init := ms[..|ms| - 1];
      var last := ms[|ms| - 1];
      FinishedAllPlayed(init);
      if last.result.Some? {
        SplitConcat(FinishedMatches(init), [last]);
        assert [last][..0] == [];
      } else {
        assert FinishedMatches(ms) == FinishedMatches(init);
      }
    }
  }

  lemma {:induction false} NoneUpcoming(ms: seq<Match>)
    requires forall i :: 0 <= i < |ms| ==> ms[i].result.Some?
    ensures UpcomingMatches(ms) == []
  {
    if ms != [] {
      NoneUpcoming(ms[..|ms| - 1]);
    }
  }

  // ---------------------------------------------------------------------
  // Tallies
  // ---------------------------------------------------------------------

  /** team name -> rank -> count, as `_cumulate_outcome` and `_cumulate_results` build it. */
  type Tally = map<string, map<int, int>>

  /** The ranks a tally holds for a team, none when it does not hold the team. */
  function RanksOf(t: Tally, team: string): map<int, int>
  {
    if team in t then t[team] else map[]
  }

  /** The count a tally holds for a team at a rank, 0 when it holds none. */
  function Lookup(t: Tally, team: string, rank: int): int
  {
    if team in t && rank in t[team] then t[team][rank] else 0
  }

  /** One `[team][standing] += 1` step of `_cumulate_outcome`, creating the entries it lacks. */
  function Bump(t: Tally, team: string, rank: int): (r: Tally)
    ensures forall x :: x in r <==> x in t || x == team
    ensures forall x, k :: x in r && k in r[x] <==> (x in t && k in t[x]) || (x == team && k == rank)
    ensures forall x, k :: Lookup(r, x, k) == Lookup(t, x, k) + (if x == team && k == rank then 1 else 0)
  {
    var ranks := RanksOf(t, team);
    t[team := ranks[rank := (if rank in ranks then ranks[rank] else 0) + 1]]
  }

  /** The step `_cumulate_outcome` takes for one listed team is `Bump`. */
  lemma BumpIs(t: Tally, team: string, rank: int, ranks: map<int, int>)
    requires RanksOf(t, team) == map[] ==> ranks == map[rank := 1]
    requires RanksOf(t, team) != map[] ==>
      ranks == RanksOf(t, team)[rank := (if rank in RanksOf(t, team) then RanksOf(t, team)[rank] else 0) + 1]
    ensures t[team := ranks] == Bump(t, team, rank)
  {
  }

  /** `t` with one count added at `rank` for each name of `teams`, in list order. */
  function BucketTally(t: Tally, rank: int, teams: seq<string>): Tally
  {
    if teams == [] then t
    else Bump(BucketTally(t, rank, teams[..|teams| - 1]), teams[|teams| - 1], rank)
  }

  /** `_cumulate_outcome`'s dict for the standings, bucket after bucket in dict order. */
  function TallyOf(st: Buckets): Tally
  {
    if st == [] then map[]
    else
      var last := st[|st| - 1];
      BucketTally(TallyOf(st[..|st| - 1]), last.0, last.1)
  }

  /** How many times `team` is listed under the key `rank` in `st`. */
  function Listed(st: Buckets, team: string, rank: int): nat
  {
    if st == [] then 0
    else (if st[0].0 == rank then multiset(st[0].1)[team] else 0) + Listed(st[1..], team, rank)
  }

  lemma {:induction false} BucketTallyCount(t: Tally, rank: int, teams: seq<string>, x: string, k: int)
    ensures Lookup(BucketTally(t, rank, teams), x, k) ==
      Lookup(t, x, k) + (if k == rank then multiset(teams)[x] else 0)
  {
    if teams != [] {
      var init := teams[..|teams| - 1];
      BucketTallyCount(t, rank, init, x, k);
      assert teams == init + [teams[|teams| - 1]];
    }
  }

  lemma {:induction false} BucketTallyKeys(t: Tally, rank: int, teams: seq<string>, x: string, k: int)
    ensures x in BucketTally(t, rank, teams) <==> x in t || x in teams
    ensures x in BucketTally(t, rank, teams) && k in BucketTally(t, rank, teams)[x] <==>
      (x in t && k in t[x]) || (k == rank && x in teams)
  {
    if teams != [] {
      var init := teams[..|teams| - 1];
      BucketTallyKeys(t, rank, init, x, k);
      assert teams == init + [teams[|teams| - 1]];
    }
  }

  lemma {:induction false} ListedConcat(a: Buckets, b: Buckets, x: string, k: int)
    ensures Listed(a + b, x, k) == Listed(a, x, k) + Listed(b, x, k)
  {
    if a != [] {
      assert (a + b)[1..] == a[1..] + b;
      ListedConcat(a[1..], b, x, k);
    } else {
      assert a + b == b;
    }
  }

  /** The tally counts, for each team and rank, how often the standings list it there. */
  lemma {:induction false} TallyCount(st: Buckets, x: string, k: int)
    ensures Lookup(TallyOf(st), x, k) == Listed(st, x, k)
  {
    if st != [] {
      var init := st[..|st| - 1];
      var last := st[|st| - 1];
      TallyCount(init, x, k);
      BucketTallyCount(TallyOf(init), last.0, last.1, x, k);
      assert st == init + [last];
      ListedConcat(init, [last], x, k);
    }
  }

  /** The tally holds exactly the listed teams, each at exactly the ranks listing it. */
  lemma {:induction false} TallyKeys(st: Buckets, x: string, k: int)
    ensures x in TallyOf(st) <==> x in Flatten(st)
    ensures x in TallyOf(st) && k in TallyOf(st)[x] <==> Listed(st, x, k) > 0
  {
    if st != [] {
      var init := st[..|st| - 1];
      var last := st[|st| - 1];
      TallyKeys(init, x, k);
      BucketTallyKeys(TallyOf(init), last.0, last.1, x, k);
      assert st == init + [last];
      FlattenConcat(init, [last]);
      ListedConcat(init, [last], x, k);
      assert Flatten([last]) == last.1 by {
        assert [last][1..] == [];
      }
    }
  }

  lemma {:induction false} ListedAtMost(st: Buckets, x: string, k: int)
    ensures Listed(st, x, k) <= multiset(Flatten(st))[x]
  {
    if st != [] {
      ListedAtMost(st[1..], x, k);
    }
  }

  /** A team listed at most once is listed under the rank of its bucket and nowhere else. */
  lemma {:induction false} ListedOnce(st: Buckets, x: string, k: int)
    requires multiset(Flatten(st))[x] <= 1
    ensures Listed(st, x, k) == (if FirstWith(st, x) == Some(k) then 1 else 0)
  {
    if st != [] {
      ListedAtMost(st[1..], x, k);
      if x !in st[0].1 {
        ListedOnce(st[1..], x, k);
      }
    }
  }

  /** For standings that partition the teams, every listed team gets exactly one rank, counted once. */
  lemma TallyOfPartition(st: Buckets, x: string)
    requires Partition(st)
    requires x in Flatten(st)
    ensures x in TallyOf(st)
    ensures TallyOf(st)[x] == map[FirstWith(st, x).value := 1]
  {
    var r := FirstWith(st, x).value;
    TallyKeys(st, x, r);
    var m := TallyOf(st)[x];
    forall k | true
      ensures k in m <==> k == r
      ensures k in m ==> m[k] == 1
    {
      TallyKeys(st, x, k);
      TallyCount(st, x, k);
      ListedOnce(st, x, k);
    }
    assert m.Keys == {r};
  }

  // ---------------------------------------------------------------------
  // The aggregate
  // ---------------------------------------------------------------------

  /** Ranks `a` with 1 added at every rank of `ranks`, the missing ones starting from 0. */
  function AddRanks(a: map<int, int>, ranks: set<int>): (r: map<int, int>)
    ensures r.Keys == a.Keys + ranks
    ensures forall k :: k in r ==> r[k] == (if k in a then a[k] else 0) + (if k in ranks then 1 else 0)
  {
    map k | k in a.Keys + ranks :: (if k in a then a[k] else 0) + (if k in ranks then 1 else 0)
  }

  /** `acc` once the teams `done` of `tally` have been folded in by `_cumulate_results`. */
  function AddTeams(acc: Tally, tally: Tally, done: set<string>): Tally
    requires done <= tally.Keys
  {
    map x | x in acc.Keys + done :: if x in done then AddRanks(RanksOf(acc, x), tally[x].Keys) else acc[x]
  }

  /** Folding one more team of `tally` in replaces that team's ranks and nothing else. */
  lemma AddTeamsStep(acc: Tally, tally: Tally, done: set<string>, x: string)
    requires done <= tally.Keys && x in tally && x !in done
    ensures RanksOf(AddTeams(acc, tally, done), x) == RanksOf(acc, x)
    ensures AddTeams(acc, tally, done + {x}) ==
      AddTeams(acc, tally, done)[x := AddRanks(RanksOf(acc, x), tally[x].Keys)]
  {
  }

  /** Adding one more rank is one `+= 1` on that rank, starting from 0 when it is missing. */
  lemma AddRanksStep(a: map<int, int>, ranks: set<int>, k: int)
    requires k !in ranks
    ensures AddRanks(a, ranks + {k}) ==
      AddRanks(a, ranks)[k := (if k in AddRanks(a, ranks) then AddRanks(a, ranks)[k] else 0) + 1]
  {
  }

  /** `acc` with one scenario's tally folded in. */
  function AddTally(acc: Tally, tally: Tally): Tally
  {
    AddTeams(acc, tally, tally.Keys)
  }

  /** `acc` with every tally of `ts` folded in, in queue order. */
  function Aggregate(acc: Tally, ts: seq<Tally>): Tally
  {
    if ts == [] then acc else AddTally(Aggregate(acc, ts[..|ts| - 1]), ts[|ts| - 1])
  }

  lemma AggregateSnoc(acc: Tally, ts: seq<Tally>, q: nat)
    requires q < |ts|
    ensures Aggregate(acc, ts[..q + 1]) == AddTally(Aggregate(acc, ts[..q]), ts[q])
  {
    assert ts[..q + 1][..q] == ts[..q];
  }

  /** How many tallies of `ts` hold the rank `k` for the team `x`. */
  function Hits(ts: seq<Tally>, x: string, k: int): nat
  {
    if ts == [] then 0
    else Hits(ts[..|ts| - 1], x, k) + (if x in ts[|ts| - 1] && k in ts[|ts| - 1][x] then 1 else 0)
  }

  /** Some tally of `ts` holds the team `x`. */
  predicate Mentions(ts: seq<Tally>, x: string)
  {
    exists t :: t in ts && x in t
  }

  lemma AddTallyLookup(acc: Tally, tally: Tally, x: string, k: int)
    ensures Lookup(AddTally(acc, tally), x, k) ==
      Lookup(acc, x, k) + (if x in tally && k in tally[x] then 1 else 0)
    ensures x in AddTally(acc, tally) <==> x in acc || x in tally
    ensures x in AddTally(acc, tally) && k in AddTally(acc, tally)[x] <==>
      (x in acc && k in acc[x]) || (x in tally && k in tally[x])
  {
  }

  /** Each aggregate count grows by the number of folded tallies that hold that team and rank. */
  lemma {:induction false} AggregateCount(acc: Tally, ts: seq<Tally>, x: string, k: int)
    ensures Lookup(Aggregate(acc, ts), x, k) == Lookup(acc, x, k) + Hits(ts, x, k)
  {
    if ts != [] {
      AggregateCount(acc, ts[..|ts| - 1], x, k);
      AddTallyLookup(Aggregate(acc, ts[..|ts| - 1]), ts[|ts| - 1], x, k);
    }
  }

  /** The aggregate holds a team, or a rank of a team, once some folded tally does. */
  lemma {:induction false} AggregateKeys(acc: Tally, ts: seq<Tally>, x: string, k: int)
    ensures x in Aggregate(acc, ts) <==> x in acc || Mentions(ts, x)
    ensures x in Aggregate(acc, ts) && k in Aggregate(acc, ts)[x] <==>
      (x in acc && k in acc[x]) || Hits(ts, x, k) > 0
  {
    if ts != [] {
      var init := ts[..|ts| - 1];
      var last := ts[|ts| - 1];
      AggregateKeys(acc, init, x, k);
      AddTallyLookup(Aggregate(acc, init), last, x, k);
      assert ts == init + [last];
      assert Mentions(ts, x) <==> Mentions(init, x) || x in last by {
        if Mentions(ts, x) {
          var t :| t in ts && x in t;
          assert t in init || t == last;
        }
        if x in last {
          assert last in ts;
        }
        if Mentions(init, x) {
          var t :| t in init && x in t;
          assert t in ts;
        }
      }
    }
  }

  lemma {:induction false} HitsConcat(a: seq<Tally>, b: seq<Tally>, x: string, k: int)
    ensures Hits(a + b, x, k) == Hits(a, x, k) + Hits(b, x, k)
  {
    if b == [] {
      assert a + b == a;
    } else {
      assert (a + b)[..|a + b| - 1] == a + b[..|b| - 1];
      assert (a + b)[|a + b| - 1] == b[|b| - 1];
      HitsConcat(a, b[..|b| - 1], x, k);
    }
  }

  lemma {:induction false} HitsPermutation(ts: seq<Tally>, us: seq<Tally>, x: string, k: int)
    requires multiset(ts) == multiset(us)
    ensures Hits(ts, x, k) == Hits(us, x, k)
  {
    if ts != [] {
      var init := ts[..|ts| - 1];
      var last := ts[|ts| - 1];
      var j := PickLast(ts, us);
      HitsPermutation(init, us[..j] + us[j + 1..], x, k);
      HitsRemoveAt(us, j, x, k);
      HitsConcat(init, [last], x, k);
    }
  }

  /** Where the last element of `ts` sits in its permutation `us`. */
  lemma PickLast<T>(ts: seq<T>, us: seq<T>) returns (j: nat)
    requires ts != [] && multiset(ts) == multiset(us)
    ensures j < |us| && us[j] == ts[|ts| - 1]
    ensures multiset(ts[..|ts| - 1]) == multiset(us[..j] + us[j + 1..])
    ensures ts == ts[..|ts| - 1] + [ts[|ts| - 1]]
  {
    var init := ts[..|ts| - 1];
    var last := ts[|ts| - 1];
    assert ts == init + [last];
    assert last in multiset(us);
    j :| 0 <= j < |us| && us[j] == last;
    var rest := us[..j] + us[j + 1..];
    MultisetRemoveAt(us, j);
    assert multiset(init) + multiset{last} == multiset(rest) + multiset{last};
    CancelUnion(multiset(init), multiset(rest), multiset{last});
  }

  /** Taking one tally out of the list takes its hits out. */
  lemma HitsRemoveAt(us: seq<Tally>, j: nat, x: string, k: int)
    requires j < |us|
    ensures Hits(us, x, k) == Hits(us[..j] + us[j + 1..], x, k) + Hits([us[j]], x, k)
  {
    assert us == us[..j] + [us[j]] + us[j + 1..];
    HitsConcat(us[..j] + [us[j]], us[j + 1..], x, k);
    HitsConcat(us[..j], [us[j]], x, k);
    HitsConcat(us[..j], us[j + 1..], x, k);
  }

  /** Folding the same tallies in any order gives the same aggregate. */
  lemma AggregatePermutation(acc: Tally, ts: seq<Tally>, us: seq<Tally>)
    requires multiset(ts) == multiset(us)
    ensures Aggregate(acc, ts) == Aggregate(acc, us)
  {
    var a := Aggregate(acc, ts);
    var b := Aggregate(acc, us);
    forall x | true
      ensures x in a <==> x in b
      ensures x in a ==> a[x] == b[x]
    {
      AggregateKeys(acc, ts, x, 0);
      AggregateKeys(acc, us, x, 0);
      assert Mentions(ts, x) <==> Mentions(us, x) by {
        if Mentions(ts, x) {
          var t :| t in ts && x in t;
          assert t in multiset(us);
        }
        if Mentions(us, x) {
          var t :| t in us && x in t;
          assert t in multiset(ts);
        }
      }
      if x in a {
        SameRanks(acc, ts, us, x);
      }
    }
    assert a.Keys == b.Keys;
  }

  lemma SameRanks(acc: Tally, ts: seq<Tally>, us: seq<Tally>, x: string)
    requires multiset(ts) == multiset(us)
    requires x in Aggregate(acc, ts) && x in Aggregate(acc, us)
    ensures Aggregate(acc, ts)[x] == Aggregate(acc, us)[x]
  {
    var a := Aggregate(acc, ts)[x];
    var b := Aggregate(acc, us)[x];
    forall k | true
      ensures k in a <==> k in b
      ensures k in a ==> a[k] == b[k]
    {
      AggregateKeys(acc, ts, x, k);
      AggregateKeys(acc, us, x, k);
      AggregateCount(acc, ts, x, k);
      AggregateCount(acc, us, x, k);
      HitsPermutation(ts, us, x, k);
    }
    assert a.Keys == b.Keys;
  }

  /** How many of the standings put the team `x` first at the rank `k`. */
  function Finishes(sts: seq<Buckets>, x: string, k: int): nat
  {
    if sts == [] then 0
    else Finishes(sts[..|sts| - 1], x, k) + (if FirstWith(sts[|sts| - 1], x) == Some(k) then 1 else 0)
  }

  /** The tallies of all standings, in order. */
  function TalliesOf(sts: seq<Buckets>): (ts: seq<Tally>)
    ensures |ts| == |sts|
    ensures forall i :: 0 <= i < |sts| ==> ts[i] == TallyOf(sts[i])
  {
    seq(|sts|, i requires 0 <= i < |sts| => TallyOf(sts[i]))
  }

  lemma TalliesOfSnoc(sts: seq<Buckets>, k: nat)
    requires k < |sts|
    ensures TalliesOf(sts[..k + 1]) == TalliesOf(sts[..k]) + [TallyOf(sts[k])]
  {
    assert TalliesOf(sts[..k + 1])[k] == TallyOf(sts[k]);
  }

  /**
   * When every scenario's standings partition the teams, the aggregate counts,
   * for each team and rank, the scenarios in which the team finishes at that rank.
   */
  lemma {:induction false} AggregateFinishes(sts: seq<Buckets>, x: string, k: int)
    requires forall i :: 0 <= i < |sts| ==> Partition(sts[i])
    ensures Lookup(Aggregate(map[], TalliesOf(sts)), x, k) == Finishes(sts, x, k)
  {
    AggregateCount(map[], TalliesOf(sts), x, k);
    HitsFinishes(sts, x, k);
  }

  lemma {:induction false} HitsFinishes(sts: seq<Buckets>, x: string, k: int)
    requires forall i :: 0 <= i < |sts| ==> Partition(sts[i])
    ensures Hits(TalliesOf(sts), x, k) == Finishes(sts, x, k)
  {
    if sts != [] {
      var init := sts[..|sts| - 1];
      var last := sts[|sts| - 1];
      HitsFinishes(init, x, k);
      assert TalliesOf(sts)[..|sts| - 1] == TalliesOf(init);
      TallyKeys(last, x, k);
      TallyCount(last, x, k);
      ListedOnce(last, x, k);
    }
  }

  /**
   * The counts of `m` at the ranks `ks`, added up (a missing rank counts 0).
   * Over a list of distinct ranks that holds every rank of `m`, this is the
   * sum of all of `m`'s counts.
   */
  function RankTotal(m: map<int, int>, ks: seq<int>): int
  {
    if ks == [] then 0
    else RankTotal(m, ks[..|ks| - 1]) + (if ks[|ks| - 1] in m then m[ks[|ks| - 1]] else 0)
  }

  /** The ranks of `ks` are distinct and hold every rank of `m`. */
  predicate Covers(ks: seq<int>, m: map<int, int>)
  {
    (forall i, j :: 0 <= i < j < |ks| ==> ks[i] != ks[j]) && forall k :: k in m ==> k in ks
  }

  /** One more count at rank `r` adds to the total once per listing of `r`. */
  lemma {:induction false} RankTotalAddOne(a: map<int, int>, r: int, ks: seq<int>)
    ensures RankTotal(AddRanks(a, {r}), ks) == RankTotal(a, ks) + multiset(ks)[r]
  {
    if ks != [] {
      var init := ks[..|ks| - 1];
      RankTotalAddOne(a, r, init);
      assert ks == init + [ks[|ks| - 1]];
    }
  }

  /** A rank listed in a list of distinct ranks is listed once. */
  lemma ListedOnceIn(ks: seq<int>, r: int)
    requires forall i, j :: 0 <= i < j < |ks| ==> ks[i] != ks[j]
    requires r in ks
    ensures multiset(ks)[r] == 1
  {
    var i :| 0 <= i < |ks| && ks[i] == r;
    assert ks == ks[..i] + [r] + ks[i + 1..];
    assert r !in ks[..i] && r !in ks[i + 1..] by {
      forall j | 0 <= j < |ks| && j != i ensures ks[j] != r {
        if j < i {} else {}
      }
    }
  }

  /**
   * When every scenario's standings partition the teams and list the team
   * `x`, the aggregate's counts for `x` add up to the number of scenarios:
   * no scenario is lost and none is counted twice.
   */
  lemma {:induction false} AggregateTotal(sts: seq<Buckets>, x: string, ks: seq<int>)
    requires forall i :: 0 <= i < |sts| ==> Partition(sts[i]) && x in Flatten(sts[i])
    requires Covers(ks, RanksOf(Aggregate(map[], TalliesOf(sts)), x))
    ensures RankTotal(RanksOf(Aggregate(map[], TalliesOf(sts)), x), ks) == |sts|
  {
    if sts != [] {
      var init := sts[..|sts| - 1];
      var last := sts[|sts| - 1];
      var r := FirstWith(last, x).value;
      assert TalliesOf(sts)[..|sts| - 1] == TalliesOf(init);
      var acc := Aggregate(map[], TalliesOf(init));
      TallyOfPartition(last, x);
      AddTallyOne(acc, TallyOf(last), x, r);
      AggregateTotal(init, x, ks);
      RankTotalAddOne(RanksOf(acc, x), r, ks);
      ListedOnceIn(ks, r);
    } else {
      RankTotalNone(ks);
    }
  }

  lemma {:induction false} RankTotalNone(ks: seq<int>)
    ensures RankTotal(map[], ks) == 0
  {
    if ks != [] {
      RankTotalNone(ks[..|ks| - 1]);
    }
  }

  /** Folding a tally that gives `x` the single rank `r` adds `r` to the ranks of `x`. */
  lemma AddTallyOne(acc: Tally, tally: Tally, x: string, r: int)
    requires x in tally && tally[x] == map[r := 1]
    ensures RanksOf(AddTally(acc, tally), x) == AddRanks(RanksOf(acc, x), {r})
  {
    assert tally[x].Keys == {r};
  }
}
