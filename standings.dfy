/**
 * Bucketed standings of leagueprobs/leagues.py: a dict from a rank (or a
 * score) to the list of team names sharing it, and the operations that put a
 * team into a bucket and take it out again.
 */
module Standings {
  import opened Wrappers
  import opened OrderedDicts

  /** A rank -> team names dict, in insertion order. */
  type Buckets = Dict<int, seq<string>>

  /** All team names, bucket after bucket. */
  function Flatten(st: Buckets): seq<string>
  {
    if st == [] then [] else st[0].1 + Flatten(st[1..])
  }

  predicate NoEmptyBucket(st: Buckets)
  {
    forall i :: 0 <= i < |st| ==> st[i].1 != []
  }

  /**
   * The standings are a partition: one bucket per rank, no empty bucket, and
   * every team in exactly one bucket at most once.
   */
  ghost predicate Partition(st: Buckets)
  {
    KeysUnique(st) && NoEmptyBucket(st) && forall t :: multiset(Flatten(st))[t] <= 1
  }

  /**
   * `if not d.get(k): d[k] = []` followed by `d[k].append(t)`: the commented
   * `set_standing_for_team`, and the bucket step of `teams_by_wins` and
   * `place_teams`.
   */
  function AddToBucket(st: Buckets, k: int, t: string): (r: Buckets)
    ensures Get(r, k) == Some(Get(st, k).GetOr([]) + [t])
    ensures forall k' {:trigger Get(r, k')} :: k' != k ==> Get(r, k') == Get(st, k')
    ensures NoEmptyBucket(st) ==> NoEmptyBucket(r)
  {
    var r := Put(st, k, Get(st, k).GetOr([]) + [t]);
    PutNonEmpty(st, k, Get(st, k).GetOr([]) + [t]);
    r
  }

  lemma AddToBucketUnique(st: Buckets, k: int, t: string)
    requires KeysUnique(st)
    ensures KeysUnique(AddToBucket(st, k, t))
  {
    PutUnique(st, k, Get(st, k).GetOr([]) + [t]);
  }

  /** Assigning a non-empty bucket keeps every bucket non-empty. */
  lemma {:induction false} PutNonEmpty(st: Buckets, k: int, v: seq<string>)
    requires v != []
    ensures NoEmptyBucket(st) ==> NoEmptyBucket(Put(st, k, v))
  {
    if st != [] && st[0].0 != k {
      PutNonEmpty(st[1..], k, v);
      if NoEmptyBucket(st) {
        assert NoEmptyBucket(st[1..]) by {
          forall i | 0 <= i < |st[1..]| ensures st[1..][i].1 != [] {
            assert st[1..][i] == st[i + 1];
          }
        }
        var r := Put(st, k, v);
        assert r == [st[0]] + Put(st[1..], k, v);
        forall i | 0 <= i < |r| ensures r[i].1 != [] {
          if i > 0 {
            assert r[i] == Put(st[1..], k, v)[i - 1];
          }
        }
      }
    }
  }

  lemma {:induction false} FlattenAppend(st: Buckets, k: int, v: seq<string>)
    ensures Flatten(st + [(k, v)]) == Flatten(st) + v
  {
    if st == [] {
      assert [(k, v)][1..] == [];
    } else {
      assert (st + [(k, v)])[1..] == st[1..] + [(k, v)];
      FlattenAppend(st[1..], k, v);
    }
  }

  /** Replacing one bucket's contents. */
  lemma {:induction false} FlattenUpdate(st: Buckets, i: nat, v: seq<string>)
    requires i < |st|
    ensures multiset(Flatten(st[i := (st[i].0, v)])) + multiset(st[i].1) == multiset(Flatten(st)) + multiset(v)
  {
    var st' := st[i := (st[i].0, v)];
    if i == 0 {
      assert st'[1..] == st[1..];
    } else {
      assert st'[0] == st[0];
      assert st'[1..] == st[1..][i - 1 := (st[i].0, v)];
      assert st[1..][i - 1] == st[i];
      FlattenUpdate(st[1..], i - 1, v);
      assert multiset(Flatten(st')) == multiset(st[0].1) + multiset(Flatten(st'[1..]));
      assert multiset(Flatten(st)) == multiset(st[0].1) + multiset(Flatten(st[1..]));
      var a, b, b' := multiset(st[0].1), multiset(Flatten(st[1..])), multiset(Flatten(st'[1..]));
      assert b' + multiset(st[i].1) == b + multiset(v);
      assert (a + b') + multiset(st[i].1) == a + (b' + multiset(st[i].1));
      assert (a + b) + multiset(v) == a + (b + multiset(v));
    }
  }

  /** `d[k] = v` replaces the bucket at `k` (or none) by `v`. */
  lemma FlattenPut(st: Buckets, k: int, v: seq<string>)
    requires KeysUnique(st)
    ensures multiset(Flatten(Put(st, k, v))) + multiset(Get(st, k).GetOr([])) == multiset(Flatten(st)) + multiset(v)
  {
    if k in Keys(st) {
      var i :| 0 <= i < |st| && Keys(st)[i] == k;
      GetAt(st, i);
      PutPresent(st, i, v);
      FlattenUpdate(st, i, v);
    } else {
      PutAbsent(st, k, v);
      FlattenAppend(st, k, v);
    }
  }

  /** The bucket step adds exactly the one team. */
  lemma AddToBucketTeams(st: Buckets, k: int, t: string)
    requires KeysUnique(st)
    ensures multiset(Flatten(AddToBucket(st, k, t))) == multiset(Flatten(st)) + multiset{t}
  {
    var before := Get(st, k).GetOr([]);
    FlattenPut(st, k, before + [t]);
    assert multiset(before + [t]) == multiset(before) + multiset{t};
    CancelUnion(multiset(Flatten(AddToBucket(st, k, t))), multiset(Flatten(st)) + multiset{t}, multiset(before));
  }

  /** `l.pop(l.index(t))`: the list without the first occurrence of `t`. */
  function RemoveFirst(s: seq<string>, t: string): (r: seq<string>)
    ensures multiset(r) == multiset(s) - multiset{t}
  {
    if s == [] then []
    else if s[0] == t then
      assert s == [s[0]] + s[1..];
      s[1..]
    else
      assert s == [s[0]] + s[1..];
      [s[0]] + RemoveFirst(s[1..], t)
  }

  /** `RemoveFirst` removes exactly the element at the first index holding `t`. */
  lemma {:induction false} RemoveFirstAt(s: seq<string>, t: string, i: nat)
    requires i < |s| && s[i] == t && t !in s[..i]
    ensures RemoveFirst(s, t) == s[..i] + s[i + 1..]
  {
    if i == 0 {
      assert RemoveFirst(s, t) == s[1..];
      assert s[..0] + s[1..] == s[1..];
    } else {
      assert s[0] != t by {
        assert s[0] == s[..i][0];
      }
      assert t !in s[1..][..i - 1] by {
        assert s[1..][..i - 1] == s[..i][1..];
      }
      RemoveFirstAt(s[1..], t, i - 1);
      DropAtCons(s, i);
    }
  }

  /** The rank of the first bucket, in dict order, that holds `t`. */
  function FirstWith(st: Buckets, t: string): (r: Option<int>)
    ensures r.Some? <==> t in Flatten(st)
    ensures r.Some? ==> r.value in Keys(st)
  {
    if st == [] then None
    else if t in st[0].1 then Some(st[0].0)
    else FirstWith(st[1..], t)
  }

  /**
   * `reset_standing_for_team`: the first bucket holding `t` loses its first
   * `t`, and is deleted when that leaves it empty.
   */
  function ResetStanding(st: Buckets, t: string): Buckets
  {
    if st == [] then []
    else if t in st[0].1 then
      var b := RemoveFirst(st[0].1, t);
      if b == [] then st[1..] else [(st[0].0, b)] + st[1..]
    else [st[0]] + ResetStanding(st[1..], t)
  }

  /** Resetting removes one occurrence of `t`, and nothing when there is none. */
  lemma {:induction false} ResetTeams(st: Buckets, t: string)
    ensures multiset(Flatten(ResetStanding(st, t))) == multiset(Flatten(st)) - multiset{t}
  {
    if st != [] {
      var r := ResetStanding(st, t);
      DiffUnion(multiset(st[0].1), multiset(Flatten(st[1..])), t);
      if t in st[0].1 {
        var b := RemoveFirst(st[0].1, t);
        if b != [] {
          assert r[1..] == st[1..];
          assert Flatten(r) == b + Flatten(st[1..]);
        } else {
          assert multiset(b) == multiset{};
        }
      } else {
        assert r[1..] == ResetStanding(st[1..], t);
        ResetTeams(st[1..], t);
        assert Flatten(r) == st[0].1 + Flatten(ResetStanding(st[1..], t));
      }
    }
  }

  /** Resetting a team that is in no bucket changes nothing. */
  lemma {:induction false} ResetAbsent(st: Buckets, t: string)
    requires t !in Flatten(st)
    ensures ResetStanding(st, t) == st
  {
    if st != [] {
      ResetAbsent(st[1..], t);
    }
  }

  /**
   * Only the first bucket holding `t` changes: it loses its first `t`, and
   * disappears when it becomes empty. Every other rank keeps its bucket.
   */
  lemma {:induction false} ResetGet(st: Buckets, t: string, k: int)
    requires KeysUnique(st)
    ensures Get(ResetStanding(st, t), k) ==
      if FirstWith(st, t) == Some(k) then
        (var b := RemoveFirst(Get(st, k).GetOr([]), t); if b == [] then None else Some(b))
      else Get(st, k)
  {
    if st != [] {
      var r := ResetStanding(st, t);
      if t in st[0].1 {
        var b := RemoveFirst(st[0].1, t);
        if k != st[0].0 && b != [] {
          assert r[1..] == st[1..];
        }
        if k == st[0].0 {
          assert k !in Keys(st[1..]);
        }
      } else {
        assert r[1..] == ResetStanding(st[1..], t);
        ResetGet(st[1..], t, k);
        if k == st[0].0 {
          assert k !in Keys(st[1..]);
        }
      }
    }
  }

  /** Resetting keeps the shape of a dict of buckets. */
  lemma {:induction false} ResetShape(st: Buckets, t: string)
    ensures forall k :: Get(st, k).None? ==> Get(ResetStanding(st, t), k).None?
    ensures KeysUnique(st) ==> KeysUnique(ResetStanding(st, t))
    ensures NoEmptyBucket(st) ==> NoEmptyBucket(ResetStanding(st, t))
  {
    if st != [] {
      var r := ResetStanding(st, t);
      if t in st[0].1 {
        var b := RemoveFirst(st[0].1, t);
        if b != [] {
          assert r[1..] == st[1..];
          if NoEmptyBucket(st) {
            forall i | 0 <= i < |r| ensures r[i].1 != [] {
              if i > 0 { assert r[i] == st[i]; }
            }
          }
        } else if NoEmptyBucket(st) {
          forall i | 0 <= i < |r| ensures r[i].1 != [] {
            assert r[i] == st[i + 1];
          }
        }
      } else {
        assert r[1..] == ResetStanding(st[1..], t);
        ResetShape(st[1..], t);
        assert Keys(r) == [st[0].0] + Keys(ResetStanding(st[1..], t));
        if KeysUnique(st) {
          assert Get(st[1..], st[0].0).None?;
        }
        if NoEmptyBucket(st) {
          assert NoEmptyBucket(st[1..]) by {
            forall i | 0 <= i < |st[1..]| ensures st[1..][i].1 != [] {
              assert st[1..][i] == st[i + 1];
            }
          }
          forall i | 0 <= i < |r| ensures r[i].1 != [] {
            if i > 0 { assert r[i] == r[1..][i - 1]; }
          }
        }
      }
    }
  }

  /** Where the first bucket holding `t` sits, `ResetStanding` is a pop and maybe a delete there. */
  lemma {:induction false} ResetAt(st: Buckets, t: string, i: nat)
    requires i < |st| && t in st[i].1
    requires forall j :: 0 <= j < i ==> t !in st[j].1
    ensures ResetStanding(st, t) ==
      var b := RemoveFirst(st[i].1, t);
      if b == [] then st[..i] + st[i + 1..] else st[..i] + [(st[i].0, b)] + st[i + 1..]
  {
    if i > 0 {
      ResetAt(st[1..], t, i - 1);
      assert st[1..][i - 1] == st[i];
      var b := RemoveFirst(st[i].1, t);
      assert ResetStanding(st, t) == [st[0]] + ResetStanding(st[1..], t);
      if b == [] {
        TailJoin(st, i);
      } else {
        TailJoinMid(st, i, (st[i].0, b));
      }
    }
  }

  lemma TailJoin<T>(s: seq<T>, i: nat)
    requires 0 < i < |s|
    ensures [s[0]] + (s[1..][..i - 1] + s[1..][i..]) == s[..i] + s[i + 1..]
  {
    assert s[..i] == [s[0]] + s[1..][..i - 1];
  }

  lemma TailJoinMid<T>(s: seq<T>, i: nat, x: T)
    requires 0 < i < |s|
    ensures [s[0]] + (s[1..][..i - 1] + [x] + s[1..][i..]) == s[..i] + [x] + s[i + 1..]
  {
    assert s[..i] == [s[0]] + s[1..][..i - 1];
  }

  /** Reset, then the commented `set_standing_for_team`: move `t` to rank `r`. */
  function Move(st: Buckets, t: string, r: int): Buckets
  {
    AddToBucket(ResetStanding(st, t), r, t)
  }

  /**
   * Moving a team that is present keeps the same teams, one bucket per rank
   * and no empty bucket, so a partition stays a partition of the same teams.
   */
  lemma MoveKeepsPartition(st: Buckets, t: string, r: int)
    requires KeysUnique(st) && t in Flatten(st)
    ensures multiset(Flatten(Move(st, t, r))) == multiset(Flatten(st))
    ensures KeysUnique(Move(st, t, r))
    ensures NoEmptyBucket(st) ==> NoEmptyBucket(Move(st, t, r))
    ensures Partition(st) ==> Partition(Move(st, t, r))
  {
    MoveTeams(st, t, r);
    MoveShape(st, t, r);
    if Partition(st) {
      forall x ensures multiset(Flatten(Move(st, t, r)))[x] <= 1 {
        assert multiset(Flatten(Move(st, t, r)))[x] == multiset(Flatten(st))[x];
      }
    }
  }

  lemma MoveTeams(st: Buckets, t: string, r: int)
    requires KeysUnique(st) && t in Flatten(st)
    ensures multiset(Flatten(Move(st, t, r))) == multiset(Flatten(st))
  {
    var reset := ResetStanding(st, t);
    ResetTeams(st, t);
    ResetUnique(st, t);
    AddToBucketTeams(reset, r, t);
    assert t in multiset(Flatten(st));
    AddBack(multiset(Flatten(st)), t);
  }

  lemma AddBack<T>(m: multiset<T>, t: T)
    requires t in m
    ensures (m - multiset{t}) + multiset{t} == m
  {
  }

  /** Resetting any team keeps one bucket per rank. */
  lemma ResetUnique(st: Buckets, t: string)
    requires KeysUnique(st)
    ensures KeysUnique(ResetStanding(st, t))
  {
    ResetShape(st, t);
  }

  lemma MoveShape(st: Buckets, t: string, r: int)
    requires KeysUnique(st)
    ensures KeysUnique(Move(st, t, r))
    ensures NoEmptyBucket(st) ==> NoEmptyBucket(Move(st, t, r))
  {
    ResetShape(st, t);
    AddToBucketUnique(ResetStanding(st, t), r, t);
  }

  /** After a move, rank `r` ends with `t`, and ranks other than `r` and `t`'s first rank keep their bucket. */
  lemma MoveGet(st: Buckets, t: string, r: int, k: int)
    requires KeysUnique(st)
    ensures Get(Move(st, t, r), r).Some? && Get(Move(st, t, r), r).value[|Get(Move(st, t, r), r).value| - 1] == t
    ensures k != r && FirstWith(st, t) != Some(k) ==> Get(Move(st, t, r), k) == Get(st, k)
  {
    ResetGet(st, t, k);
  }

  /** A dict with unique keys holds each key at most once. */
  lemma {:induction false} UniqueAtMostOnce(st: Buckets)
    requires KeysUnique(st)
    ensures forall k :: multiset(Keys(st))[k] <= 1
  {
    if st != [] {
      UniqueAtMostOnce(st[1..]);
      assert Keys(st) == [st[0].0] + Keys(st[1..]);
    }
  }

  /** Reordering the buckets reorders the teams. */
  lemma {:induction false} FlattenPermutation(a: Buckets, b: Buckets)
    requires multiset(a) == multiset(b)
    ensures multiset(Flatten(a)) == multiset(Flatten(b))
  {
    if a == [] {
      assert |b| == |multiset(b)| == 0;
    } else {
      assert a[0] in multiset(b);
      var j :| 0 <= j < |b| && b[j] == a[0];
      var b' := b[..j] + b[j + 1..];
      MultisetRemoveAt(b, j);
      FlattenRemoveAt(b, j);
      assert a == [a[0]] + a[1..];
      Cancel(a[0], multiset(a[1..]), multiset(b'));
      FlattenPermutation(a[1..], b');
    }
  }

  lemma {:induction false} FlattenConcat(a: Buckets, b: Buckets)
    ensures Flatten(a + b) == Flatten(a) + Flatten(b)
  {
    if a == [] {
      assert a + b == b;
    } else {
      assert (a + b)[1..] == a[1..] + b;
      FlattenConcat(a[1..], b);
    }
  }

  lemma FlattenRemoveAt(b: Buckets, j: nat)
    requires j < |b|
    ensures multiset(Flatten(b)) == multiset(b[j].1) + multiset(Flatten(b[..j] + b[j + 1..]))
  {
    SplitAt(b, j);
    FlattenRemoveMiddle(b[..j], b[j], b[j + 1..]);
  }

  lemma SplitAt<T>(s: seq<T>, j: nat)
    requires j < |s|
    ensures s == s[..j] + ([s[j]] + s[j + 1..])
  {
  }

  lemma FlattenRemoveMiddle(pre: Buckets, x: (int, seq<string>), post: Buckets)
    ensures multiset(Flatten(pre + ([x] + post))) == multiset(x.1) + multiset(Flatten(pre + post))
  {
    assert Flatten([x] + post) == x.1 + Flatten(post) by {
      assert ([x] + post)[1..] == post;
    }
    FlattenConcat(pre, [x] + post);
    FlattenConcat(pre, post);
    MultisetOfThree(Flatten(pre), x.1, Flatten(post));
  }

  lemma MultisetOfThree(x: seq<string>, y: seq<string>, z: seq<string>)
    ensures multiset(x + (y + z)) == multiset(y) + multiset(x + z)
  {
  }
}
