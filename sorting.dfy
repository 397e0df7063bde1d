/**
 * Python's `sorted(items, key=..., reverse=True)`: a stable sort into
 * non-increasing key order. Any stable sort gives the same sequence, so the
 * model uses insertion sort.
 */
module Sorting {

  /** Each element's key is at least the next one's. */
  predicate SortedDesc<T>(s: seq<T>, key: T -> int)
  {
    |s| <= 1 || (key(s[0]) >= key(s[1]) && SortedDesc(s[1..], key))
  }

  /** The elements of `s` whose key is `w`, in their order in `s`. */
  function WithKey<T>(s: seq<T>, key: T -> int, w: int): seq<T>
  {
    if s == [] then [] else (if key(s[0]) == w then [s[0]] else []) + WithKey(s[1..], key, w)
  }

  /** Inserts `x` in front of the first element whose key is not larger. */
  function Insert<T>(x: T, s: seq<T>, key: T -> int): (r: seq<T>)
    requires SortedDesc(s, key)
    ensures SortedDesc(r, key)
    ensures multiset(r) == multiset([x] + s)
    ensures r[0] == x || (s != [] && r[0] == s[0])
  {
    if s == [] then [x]
    else if key(s[0]) <= key(x) then
      var r := [x] + s;
      assert r[1..] == s;
      r
    else
      var rest := Insert(x, s[1..], key);
      var r := [s[0]] + rest;
      assert r[1..] == rest;
      assert s == [s[0]] + s[1..];
      r
  }

  lemma WithKeyCons<T>(y: T, t: seq<T>, key: T -> int, w: int)
    ensures WithKey([y] + t, key, w) == (if key(y) == w then [y] else []) + WithKey(t, key, w)
  {
    assert ([y] + t)[1..] == t;
  }

  lemma {:induction false} InsertWithKey<T>(x: T, s: seq<T>, key: T -> int, w: int)
    requires SortedDesc(s, key)
    ensures WithKey(Insert(x, s, key), key, w) == WithKey([x] + s, key, w)
  {
    if s != [] && key(s[0]) > key(x) {
      var rest := Insert(x, s[1..], key);
      var a := if key(s[0]) == w then [s[0]] else [];
      var b := if key(x) == w then [x] else [];
      var ws := WithKey(s[1..], key, w);
      calc {
        WithKey(Insert(x, s, key), key, w);
      == { assert Insert(x, s, key) == [s[0]] + rest; WithKeyCons(s[0], rest, key, w); }
        a + WithKey(rest, key, w);
      == { InsertWithKey(x, s[1..], key, w); WithKeyCons(x, s[1..], key, w); }
        a + (b + ws);
      == { SwapEmpty(a, b, ws); }
        b + (a + ws);
      == { WithKeyCons(s[0], s[1..], key, w); assert s == [s[0]] + s[1..]; }
        b + WithKey(s, key, w);
      == { WithKeyCons(x, s, key, w); }
        WithKey([x] + s, key, w);
      }
    }
  }

  /** When one of two prefixes is empty, their order does not matter. */
  lemma SwapEmpty<T>(a: seq<T>, b: seq<T>, t: seq<T>)
    requires a == [] || b == []
    ensures a + (b + t) == b + (a + t)
  {
    if a == [] {
      assert a + (b + t) == b + t;
      assert a + t == t;
    } else {
      assert b + t == t;
      assert b + (a + t) == a + t;
    }
  }

  /**
   * The sorted sequence: non-increasing in key, a permutation of the input, and
   * stable (elements with equal keys keep their relative order).
   */
  function SortDesc<T>(s: seq<T>, key: T -> int): (r: seq<T>)
    ensures SortedDesc(r, key)
    ensures multiset(r) == multiset(s)
    ensures forall w :: WithKey(r, key, w) == WithKey(s, key, w)
  {
    if s == [] then []
    else
      assert s == [s[0]] + s[1..];
      var rest := SortDesc(s[1..], key);
      forall w ensures WithKey(Insert(s[0], rest, key), key, w) == WithKey(s, key, w) {
        InsertWithKey(s[0], rest, key, w);
        assert ([s[0]] + rest)[1..] == rest;
      }
      Insert(s[0], rest, key)
  }

  /** The first element of a descending sequence has the largest key. */
  lemma {:induction false} SortedDescFirst<T>(s: seq<T>, key: T -> int, g: nat)
    requires SortedDesc(s, key) && g < |s|
    ensures key(s[0]) >= key(s[g])
  {
    if g > 0 {
      SortedDescFirst(s[1..], key, g - 1);
    }
  }
}
