/**
 * A Python dict, represented as the sequence of its items in insertion order.
 * Assigning to a present key keeps its position; assigning to a new key appends;
 * deleting a key removes its item.
 */
module OrderedDicts {
  import opened Wrappers

  type Dict<K, V> = seq<(K, V)>

  /** The keys, in iteration order. */
  function Keys<K, V>(d: Dict<K, V>): (ks: seq<K>)
    ensures |ks| == |d|
    ensures forall i {:trigger ks[i]} :: 0 <= i < |d| ==> ks[i] == d[i].0
  {
    if d == [] then [] else [d[0].0] + Keys(d[1..])
  }

  /** A real dict never holds a key twice. */
  predicate KeysUnique<K(==), V>(d: Dict<K, V>)
  {
    d == [] || (d[0].0 !in Keys(d[1..]) && KeysUnique(d[1..]))
  }

  /** `d.get(k)`: the value of the first item with key `k`. */
  function Get<K(==), V>(d: Dict<K, V>, k: K): (r: Option<V>)
    ensures r.Some? <==> k in Keys(d)
    ensures r.Some? ==> (k, r.value) in d
  {
    if d == [] then None
    else if d[0].0 == k then Some(d[0].1)
    else Get(d[1..], k)
  }

  /** `d[k] = v`. */
  function Put<K(==,!new), V>(d: Dict<K, V>, k: K, v: V): (r: Dict<K, V>)
    ensures Get(r, k) == Some(v)
    ensures forall k' {:trigger Get(r, k')} :: k' != k ==> Get(r, k') == Get(d, k')
  {
    if d == [] then [(k, v)]
    else if d[0].0 == k then
      var r := [(k, v)] + d[1..];
      assert r[1..] == d[1..];
      r
    else
      var rest := Put(d[1..], k, v);
      var r := [d[0]] + rest;
      assert r[1..] == rest;
      assert Get(rest, d[0].0) == Get(d[1..], d[0].0);
      r
  }

  /** `del d[k]` for a present key; no change for an absent one. */
  function Del<K(==,!new), V>(d: Dict<K, V>, k: K): (r: Dict<K, V>)
    ensures forall k' {:trigger Get(r, k')} :: k' != k ==> Get(r, k') == Get(d, k')
  {
    if d == [] then []
    else if d[0].0 == k then d[1..]
    else
      var rest := Del(d[1..], k);
      var r := [d[0]] + rest;
      assert r[1..] == rest;
      assert Get(rest, d[0].0) == Get(d[1..], d[0].0);
      r
  }

  /** Assigning keeps the keys unique. */
  lemma {:induction false} PutUnique<K(!new), V>(d: Dict<K, V>, k: K, v: V)
    requires KeysUnique(d)
    ensures KeysUnique(Put(d, k, v))
  {
    if d != [] && d[0].0 != k {
      PutUnique(d[1..], k, v);
      var rest := Put(d[1..], k, v);
      assert Put(d, k, v) == [d[0]] + rest;
      assert ([d[0]] + rest)[1..] == rest;
      assert Get(rest, d[0].0) == Get(d[1..], d[0].0);
    } else if d != [] {
      assert Put(d, k, v)[1..] == d[1..];
    }
  }

  /** Deleting keeps the keys unique and removes the key. */
  lemma {:induction false} DelUnique<K(!new), V>(d: Dict<K, V>, k: K)
    requires KeysUnique(d)
    ensures KeysUnique(Del(d, k)) && Get(Del(d, k), k) == None
  {
    if d != [] && d[0].0 != k {
      DelUnique(d[1..], k);
      var rest := Del(d[1..], k);
      assert Del(d, k) == [d[0]] + rest;
      assert ([d[0]] + rest)[1..] == rest;
      assert Get(rest, d[0].0) == Get(d[1..], d[0].0);
    }
  }

  /** In a dict, the item at position `i` is what `get` finds for its key. */
  lemma {:induction false} GetAt<K, V>(d: Dict<K, V>, i: nat)
    requires KeysUnique(d) && i < |d|
    ensures Get(d, d[i].0) == Some(d[i].1)
  {
    if i > 0 {
      assert d[i].0 == Keys(d[1..])[i - 1];
      GetAt(d[1..], i - 1);
    }
  }

  /** The values, in iteration order. */
  function Values<K, V>(d: Dict<K, V>): (vs: seq<V>)
    ensures |vs| == |d|
    ensures forall i {:trigger vs[i]} :: 0 <= i < |d| ==> vs[i] == d[i].1
  {
    if d == [] then [] else [d[0].1] + Values(d[1..])
  }

  /** Uniqueness of keys, stated position by position. */
  lemma {:induction false} KeysUniqueAt<K, V>(d: Dict<K, V>)
    ensures KeysUnique(d) <==> forall i, j :: 0 <= i < j < |d| ==> d[i].0 != d[j].0
  {
    if d != [] {
      KeysUniqueAt(d[1..]);
      if !KeysUnique(d) && d[0].0 in Keys(d[1..]) {
        var m :| 0 <= m < |d[1..]| && Keys(d[1..])[m] == d[0].0;
        assert d[m + 1].0 == d[0].0;
      }
      if KeysUnique(d) {
        forall i, j | 0 <= i < j < |d| ensures d[i].0 != d[j].0 {
          if i == 0 {
            assert d[j].0 == Keys(d[1..])[j - 1];
          } else {
            assert d[i] == d[1..][i - 1] && d[j] == d[1..][j - 1];
          }
        }
      }
    }
  }

  /** Assigning to a present key replaces its item in place. */
  lemma {:induction false} PutPresent<K(!new), V>(d: Dict<K, V>, i: nat, v: V)
    requires KeysUnique(d) && i < |d|
    ensures Put(d, d[i].0, v) == d[i := (d[i].0, v)]
  {
    if i > 0 {
      assert d[i].0 == Keys(d[1..])[i - 1];
      PutPresent(d[1..], i - 1, v);
      assert d[1..][i - 1 := (d[i].0, v)] == d[i := (d[i].0, v)][1..];
    }
  }

  /** Deleting a present key removes its item and leaves the others in order. */
  lemma {:induction false} DelPresent<K(!new), V>(d: Dict<K, V>, i: nat)
    requires KeysUnique(d) && i < |d|
    ensures Del(d, d[i].0) == d[..i] + d[i + 1..]
  {
    if i == 0 {
      assert d[..0] + d[1..] == d[1..];
    } else {
      assert d[i].0 == Keys(d[1..])[i - 1];
      DelPresent(d[1..], i - 1);
      DropAtCons(d, i);
    }
  }

  /** A prefix one longer is the prefix and the next element. */
  lemma PrefixSnoc<T>(s: seq<T>, j: nat)
    requires j < |s|
    ensures s[..j] + [s[j]] == s[..j + 1]
  {
  }

  /** A prefix of a prefix is a prefix. */
  lemma PrefixOfPrefix<T>(s: seq<T>, i: nat, j: nat)
    requires i <= j <= |s|
    ensures s[..j][..i] == s[..i]
  {
  }

  /** The whole prefix is the sequence. */
  lemma PrefixAll<T>(s: seq<T>)
    ensures s[..|s|] == s
  {
  }

  /** Dropping position `i > 0` of a sequence, seen from its tail. */
  lemma DropAtCons<T>(s: seq<T>, i: nat)
    requires 0 < i < |s|
    ensures [s[0]] + (s[1..][..i - 1] + s[1..][i..]) == s[..i] + s[i + 1..]
  {
    assert s[..i] == [s[0]] + s[1..][..i - 1];
    assert s[i + 1..] == s[1..][i..];
  }

  /** Assigning to a new key appends an item. */
  lemma {:induction false} PutAbsent<K(!new), V>(d: Dict<K, V>, k: K, v: V)
    requires k !in Keys(d)
    ensures Put(d, k, v) == d + [(k, v)]
  {
    if d != [] {
      PutAbsent(d[1..], k, v);
      assert [d[0]] + (d[1..] + [(k, v)]) == d + [(k, v)];
    }
  }

  /** Assigning a key twice is assigning it once, with the second value. */
  lemma {:induction false} PutPut<K(!new), V>(d: Dict<K, V>, k: K, v1: V, v2: V)
    ensures Put(Put(d, k, v1), k, v2) == Put(d, k, v2)
  {
    if d != [] && d[0].0 != k {
      PutPut(d[1..], k, v1, v2);
      assert Put(d, k, v1)[1..] == Put(d[1..], k, v1);
    } else if d != [] {
      assert Put(d, k, v1)[1..] == d[1..];
    }
  }

  /** Appending a new key keeps the keys unique. */
  lemma {:induction false} KeysUniqueSnoc<K, V>(d: Dict<K, V>, k: K, v: V)
    requires KeysUnique(d) && k !in Keys(d)
    ensures KeysUnique(d + [(k, v)])
  {
    if d != [] {
      KeysUniqueSnoc(d[1..], k, v);
      assert (d + [(k, v)])[1..] == d[1..] + [(k, v)];
      KeysConcat(d[1..], [(k, v)]);
    }
  }

  /** A sequence without repeats holds each of its elements once. */
  lemma {:induction false} DistinctMultiset<T>(s: seq<T>)
    requires forall i, j :: 0 <= i < j < |s| ==> s[i] != s[j]
    ensures multiset(s) == multiset(set x | x in s)
  {
    if s != [] {
      var rest := s[1..];
      forall i, j | 0 <= i < j < |rest| ensures rest[i] != rest[j] {
        assert rest[i] == s[i + 1] && rest[j] == s[j + 1];
      }
      DistinctMultiset(rest);
      assert s == [s[0]] + rest;
      assert s[0] !in rest by {
        forall m | 0 <= m < |rest| ensures rest[m] != s[0] {
          assert rest[m] == s[m + 1];
        }
      }
      assert (set x | x in s) == {s[0]} + (set x | x in rest);
    }
  }

  /** A sequence that holds each element at most once has no repeats. */
  lemma AtMostOnceDistinct<T>(s: seq<T>)
    requires forall x :: multiset(s)[x] <= 1
    ensures forall i, j :: 0 <= i < j < |s| ==> s[i] != s[j]
  {
    forall i, j | 0 <= i < j < |s| ensures s[i] != s[j] {
      MultisetRemoveAt(s, j);
      assert (s[..j] + s[j + 1..])[i] == s[i];
      assert multiset(s)[s[j]] == 1 + multiset(s[..j] + s[j + 1..])[s[j]];
    }
  }

  /** Keys that occur at most once are unique. */
  lemma KeysAtMostOnce<K, V>(d: Dict<K, V>)
    requires forall x :: multiset(Keys(d))[x] <= 1
    ensures KeysUnique(d)
  {
    AtMostOnceDistinct(Keys(d));
    KeysUniqueAt(d);
    forall i, j | 0 <= i < j < |d| ensures d[i].0 != d[j].0 {
      assert Keys(d)[i] == d[i].0 && Keys(d)[j] == d[j].0;
    }
  }

  /** Appending an element: `FirstAppearance` keeps its order and adds it at the end if it is new. */
  lemma FirstAppearanceSnoc<T(!new)>(xs: seq<T>, x: T)
    ensures FirstAppearance(xs + [x]) == if x in FirstAppearance(xs) then FirstAppearance(xs) else FirstAppearance(xs) + [x]
  {
    assert (xs + [x])[..|xs|] == xs;
  }

  lemma {:induction false} KeysConcat<K, V>(a: Dict<K, V>, b: Dict<K, V>)
    ensures Keys(a + b) == Keys(a) + Keys(b)
  {
    if a != [] {
      assert (a + b)[1..] == a[1..] + b;
      KeysConcat(a[1..], b);
    }
  }

  /** Splitting off the element at `j`. */
  lemma MultisetRemoveAt<T>(s: seq<T>, j: nat)
    requires j < |s|
    ensures multiset(s) == multiset{s[j]} + multiset(s[..j] + s[j + 1..])
  {
    assert s == s[..j] + [s[j]] + s[j + 1..];
  }
  /** Splitting off the key of the item at `j`. */
  lemma KeysRemoveAt<K, V>(b: Dict<K, V>, j: nat)
    requires j < |b|
    ensures multiset(Keys(b)) == multiset{b[j].0} + multiset(Keys(b[..j] + b[j + 1..]))
  {
    var ks := Keys(b);
    KeysConcat(b[..j], b[j + 1..]);
    assert Keys(b[..j]) == ks[..j];
    assert Keys(b[j + 1..]) == ks[j + 1..];
    MultisetRemoveAt(ks, j);
  }
  /** Multiset union cancels. */
  lemma Cancel<T>(x: T, p: multiset<T>, q: multiset<T>)
    requires multiset{x} + p == multiset{x} + q
    ensures p == q
  {
    assert p == (multiset{x} + p) - multiset{x};
  }
  /** Cancel a common part of two multiset unions. */
  lemma CancelUnion<T>(p: multiset<T>, q: multiset<T>, c: multiset<T>)
    requires p + c == q + c
    ensures p == q
  {
    assert p == (p + c) - c;
    assert q == (q + c) - c;
  }

  /** Taking one `t` out of a union takes it out of the part that holds it. */
  lemma DiffUnion<T>(a: multiset<T>, b: multiset<T>, t: T)
    ensures t in a ==> (a - multiset{t}) + b == (a + b) - multiset{t}
    ensures t !in a ==> a + (b - multiset{t}) == (a + b) - multiset{t}
  {
  }

  /** Reordering the items reorders the keys. */
  lemma {:induction false} KeysPermutation<K, V>(a: Dict<K, V>, b: Dict<K, V>)
    requires multiset(a) == multiset(b)
    ensures multiset(Keys(a)) == multiset(Keys(b))
  {
    if a == [] {
      assert |b| == |multiset(b)| == 0;
    } else {
      assert a[0] in multiset(b);
      var j :| 0 <= j < |b| && b[j] == a[0];
      var b' := b[..j] + b[j + 1..];
      MultisetRemoveAt(b, j);
      KeysRemoveAt(b, j);
      assert a == [a[0]] + a[1..];
      assert Keys(a) == [a[0].0] + Keys(a[1..]);
      Cancel(a[0], multiset(a[1..]), multiset(b'));
      KeysPermutation(a[1..], b');
    }
  }

  /** Keys in the order a dict receives them when they are assigned in the order of `xs`. */
  function FirstAppearance<T(==,!new)>(xs: seq<T>): (r: seq<T>)
    ensures forall x :: x in r <==> x in xs
    ensures forall i, j :: 0 <= i < j < |r| ==> r[i] != r[j]
  {
    if xs == [] then []
    else
      var p := FirstAppearance(xs[..|xs| - 1]);
      if xs[|xs| - 1] in p then p else p + [xs[|xs| - 1]]
  }
}
