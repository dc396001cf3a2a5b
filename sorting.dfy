/**
 * The comparator sorts the client uses (`Array.prototype.sort` with a numeric
 * comparator `(a, b) => key(a) - key(b)` or `key(b) - key(a)`), modelled as an
 * insertion sort on sequences. The sort is stable, as ECMAScript requires of
 * `Array.prototype.sort` since its 2019 edition: elements with equal keys keep
 * their input order.
 */
module Sorting {

  predicate SortedAsc<T>(s: seq<T>, key: T -> int) {
    forall i, j :: 0 <= i < j < |s| ==> key(s[i]) <= key(s[j])
  }

  predicate SortedDesc<T>(s: seq<T>, key: T -> int) {
    forall i, j :: 0 <= i < j < |s| ==> key(s[i]) >= key(s[j])
  }

  /** The elements of `s` whose key is `k`, in their order in `s`. */
  function WithKey<T>(s: seq<T>, key: T -> int, k: int): seq<T> {
    if s == [] then [] else (if key(s[0]) == k then [s[0]] else []) + WithKey(s[1..], key, k)
  }

  /** `r` orders the elements of every key as `s` does. */
  ghost predicate Stable<T>(r: seq<T>, s: seq<T>, key: T -> int) {
    forall k :: WithKey(r, key, k) == WithKey(s, key, k)
  }

  /** Places `x` in front of the first element whose key is not smaller. */
  function InsertAsc<T(==)>(x: T, s: seq<T>, key: T -> int): (r: seq<T>)
    requires SortedAsc(s, key)
    ensures SortedAsc(r, key)
    ensures multiset(r) == multiset(s) + multiset{x}
  {
    if s == [] then [x]
    else if key(x) <= key(s[0]) then [x] + s
    else
      var rest := s[1..];
      assert SortedAsc(rest, key);
      var t := InsertAsc(x, rest, key);
      assert s == [s[0]] + rest;
      assert forall j :: 0 <= j < |t| ==> key(s[0]) <= key(t[j]) by {
        forall j | 0 <= j < |t| ensures key(s[0]) <= key(t[j]) {
          assert t[j] in multiset(t);
          if t[j] != x {
            assert t[j] in multiset(rest);
            var k :| 0 <= k < |rest| && rest[k] == t[j];
            assert s[k + 1] == t[j];
          }
        }
      }
      assert multiset([s[0]] + t) == multiset{s[0]} + multiset(t);
      [s[0]] + t
  }

  /**
   * `x` goes in front of every element with its key: among the elements of
   * its key it comes first, and every other key keeps its elements.
   */
  lemma {:induction false} InsertAscKeys<T>(x: T, s: seq<T>, key: T -> int, k: int)
    requires SortedAsc(s, key)
    ensures WithKey(InsertAsc(x, s, key), key, k) == (if key(x) == k then [x] else []) + WithKey(s, key, k)
  {
    if s == [] {
    } else if key(x) <= key(s[0]) {
      WithKeyCons(x, s, key, k);
    } else {
      var rest := s[1..];
      assert SortedAsc(rest, key);
      var t := InsertAsc(x, rest, key);
      assert InsertAsc(x, s, key) == [s[0]] + t;
      assert [s[0]] + rest == s;
      var head: seq<T> := if key(s[0]) == k then [s[0]] else [];
      var mine: seq<T> := if key(x) == k then [x] else [];
      var others := WithKey(rest, key, k);
      InsertAscKeys(x, rest, key, k);
      WithKeyCons(s[0], t, key, k);
      WithKeyCons(s[0], rest, key, k);
      assert head == [] || mine == [];
      SwapEmpty(head, mine, others);
    }
  }

  /** Two parts of which one is empty can be joined in either order. */
  lemma SwapEmpty<T>(a: seq<T>, b: seq<T>, w: seq<T>)
    requires a == [] || b == []
    ensures a + (b + w) == b + (a + w)
  {
    if a == [] {
      assert a + (b + w) == b + w == b + (a + w);
    } else {
      assert a + (b + w) == a + w == b + (a + w);
    }
  }

  lemma WithKeyCons<T>(a: T, t: seq<T>, key: T -> int, k: int)
    ensures WithKey([a] + t, key, k) == (if key(a) == k then [a] else []) + WithKey(t, key, k)
  {
    assert ([a] + t)[1..] == t;
  }

  /** `s.slice().sort((a, b) => key(a) - key(b))` */
  function SortAsc<T(==)>(s: seq<T>, key: T -> int): (r: seq<T>)
    ensures SortedAsc(r, key)
    ensures multiset(r) == multiset(s)
    ensures Stable(r, s, key)
  {
    if s == [] then []
    else
      assert s == [s[0]] + s[1..];
      var t := SortAsc(s[1..], key);
      assert Stable(InsertAsc(s[0], t, key), s, key) by {
        forall k ensures WithKey(InsertAsc(s[0], t, key), key, k) == WithKey(s, key, k) {
          InsertAscKeys(s[0], t, key, k);
        }
      }
      InsertAsc(s[0], t, key)
  }

  /** `s.slice().sort((a, b) => key(b) - key(a))` */
  function SortDesc<T(==)>(s: seq<T>, key: T -> int): (r: seq<T>)
    ensures SortedDesc(r, key)
    ensures multiset(r) == multiset(s)
    ensures Stable(r, s, key)
  {
    var neg := (x: T) => -key(x);
    var r := SortAsc(s, neg);
    assert forall i, j :: 0 <= i < j < |r| ==> neg(r[i]) <= neg(r[j]);
    assert Stable(r, s, key) by {
      forall k ensures WithKey(r, key, k) == WithKey(s, key, k) {
        WithKeyNegated(r, key, neg, k);
        WithKeyNegated(s, key, neg, k);
      }
    }
    r
  }

  /** Negating the key renames the groups of equal keys and keeps each one. */
  lemma {:induction false} WithKeyNegated<T>(s: seq<T>, key: T -> int, neg: T -> int, k: int)
    requires forall x :: neg(x) == -key(x)
    ensures WithKey(s, neg, -k) == WithKey(s, key, k)
  {
    if s != [] {
      WithKeyNegated(s[1..], key, neg, k);
    }
  }

  /** When every element has the key `k`, grouping by `k` keeps the whole sequence. */
  lemma {:induction false} WithKeyAll<T>(s: seq<T>, key: T -> int, k: int)
    requires forall i :: 0 <= i < |s| ==> key(s[i]) == k
    ensures WithKey(s, key, k) == s
  {
    if s != [] {
      WithKeyAll(s[1..], key, k);
    }
  }

  /** When all keys tie, sorting leaves the order as it was. */
  lemma SortDescAllTied<T>(s: seq<T>, key: T -> int, k: int)
    requires forall i :: 0 <= i < |s| ==> key(s[i]) == k
    ensures SortDesc(s, key) == s
  {
    var r := SortDesc(s, key);
    forall i | 0 <= i < |r| ensures key(r[i]) == k {
      assert r[i] in multiset(r);
      var j :| 0 <= j < |s| && s[j] == r[i];
    }
    WithKeyAll(r, key, k);
    WithKeyAll(s, key, k);
  }

  /** A sorted permutation keeps every element and adds none. */
  lemma SameElements<T>(r: seq<T>, s: seq<T>)
    requires multiset(r) == multiset(s)
    ensures forall x :: x in r <==> x in s
    ensures |r| == |s|
  {
    assert |multiset(r)| == |multiset(s)|;
    forall x ensures x in r <==> x in s {
      assert x in r <==> x in multiset(r);
      assert x in s <==> x in multiset(s);
    }
  }
}
