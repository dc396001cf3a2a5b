/** `Array.prototype.filter`, `find` and `findIndex` on sequences. */
module Lists {

  /** `s.filter(p)`: the elements satisfying `p`, in their order. */
  function Filter<T(==)>(s: seq<T>, p: T -> bool): (r: seq<T>)
    ensures |r| <= |s|
    ensures forall i :: 0 <= i < |r| ==> r[i] in s && p(r[i])
    ensures forall i :: 0 <= i < |s| && p(s[i]) ==> s[i] in r
  {
    if s == [] then []
    else if p(s[0]) then [s[0]] + Filter(s[1..], p)
    else Filter(s[1..], p)
  }

  /** Filtering never adds copies of an element. */
  lemma {:induction false} FilterSubMultiset<T>(s: seq<T>, p: T -> bool)
    ensures multiset(Filter(s, p)) <= multiset(s)
  {
    if s != [] {
      FilterSubMultiset(s[1..], p);
      assert s == [s[0]] + s[1..];
    }
  }

  /** Filtering twice by the same predicate is filtering once. */
  lemma {:induction false} FilterIdempotent<T>(s: seq<T>, p: T -> bool)
    ensures Filter(Filter(s, p), p) == Filter(s, p)
  {
    if s != [] {
      FilterIdempotent(s[1..], p);
    }
  }

  /** A predicate every element satisfies keeps the whole list. */
  lemma {:induction false} FilterAll<T>(s: seq<T>, p: T -> bool)
    requires forall i :: 0 <= i < |s| ==> p(s[i])
    ensures Filter(s, p) == s
  {
    if s != [] {
      assert forall i :: 0 <= i < |s[1..]| ==> p(s[1..][i]) by {
        forall i | 0 <= i < |s[1..]| ensures p(s[1..][i]) {
          assert s[1..][i] == s[i + 1];
        }
      }
      FilterAll(s[1..], p);
    }
  }

  /** Filtering distributes over concatenation. */
  lemma {:induction false} FilterAppend<T>(a: seq<T>, b: seq<T>, p: T -> bool)
    ensures Filter(a + b, p) == Filter(a, p) + Filter(b, p)
  {
    if a != [] {
      FilterAppend(a[1..], b, p);
      assert (a + b)[1..] == a[1..] + b;
    } else {
      assert a + b == b;
    }
  }

  /** Filtering by `p` and then by `q` is filtering once by their conjunction. */
  lemma {:induction false} FilterCompose<T>(s: seq<T>, p: T -> bool, q: T -> bool, pq: T -> bool)
    requires forall x :: pq(x) == (p(x) && q(x))
    ensures Filter(Filter(s, p), q) == Filter(s, pq)
  {
    if s != [] {
      FilterCompose(s[1..], p, q, pq);
    }
  }

  /** Predicates that agree everywhere filter alike. */
  lemma {:induction false} FilterSame<T>(s: seq<T>, p: T -> bool, q: T -> bool)
    requires forall x :: p(x) == q(x)
    ensures Filter(s, p) == Filter(s, q)
  {
    if s != [] {
      FilterSame(s[1..], p, q);
    }
  }

  /** `s.findIndex(p)`: the first index satisfying `p`, or -1. */
  function FindIndex<T>(s: seq<T>, p: T -> bool): (r: int)
    ensures -1 <= r < |s|
    ensures r >= 0 ==> p(s[r]) && forall j :: 0 <= j < r ==> !p(s[j])
    ensures r == -1 <==> forall j :: 0 <= j < |s| ==> !p(s[j])
  {
    if s == [] then -1
    else if p(s[0]) then 0
    else
      var k := FindIndex(s[1..], p);
      if k == -1 then -1 else k + 1
  }

  /** Lists whose elements agree pointwise under `p` and `q` have the same first match. */
  lemma {:induction false} FindIndexSame<T, U>(s: seq<T>, t: seq<U>, p: T -> bool, q: U -> bool)
    requires |s| == |t|
    requires forall i :: 0 <= i < |s| ==> p(s[i]) == q(t[i])
    ensures FindIndex(s, p) == FindIndex(t, q)
  {
    if s != [] {
      assert forall i :: 0 <= i < |s[1..]| ==> p(s[1..][i]) == q(t[1..][i]) by {
        forall i | 0 <= i < |s[1..]| ensures p(s[1..][i]) == q(t[1..][i]) {
          assert s[1..][i] == s[i + 1] && t[1..][i] == t[i + 1];
        }
      }
      FindIndexSame(s[1..], t[1..], p, q);
    }
  }

  /** `s.splice(k, 1)` on a copy: the list without its element at `k`. */
  function RemoveAt<T>(s: seq<T>, k: nat): (r: seq<T>)
    requires k < |s|
    ensures |r| == |s| - 1
  {
    s[..k] + s[k + 1..]
  }

  /** Removing an element keeps the others in their order and takes exactly one copy of it away. */
  lemma RemoveAtKeepsRest<T>(s: seq<T>, k: nat)
    requires k < |s|
    ensures forall i :: 0 <= i < k ==> RemoveAt(s, k)[i] == s[i]
    ensures forall i :: k <= i < |s| - 1 ==> RemoveAt(s, k)[i] == s[i + 1]
    ensures multiset(RemoveAt(s, k)) + multiset{s[k]} == multiset(s)
  {
    assert s == s[..k] + [s[k]] + s[k + 1..];
  }

  /** No element occurs twice. */
  predicate Distinct<K(==)>(s: seq<K>) {
    forall i, j :: 0 <= i < j < |s| ==> s[i] != s[j]
  }

  lemma {:induction false} DistinctCard<K>(s: seq<K>)
    requires Distinct(s)
    ensures |set i | 0 <= i < |s| :: s[i]| == |s|
  {
    if s != [] {
      var init := s[..|s| - 1];
      DistinctCard(init);
      assert (set i | 0 <= i < |s| :: s[i]) == (set i | 0 <= i < |init| :: init[i]) + {s[|s| - 1]};
    }
  }

  /** No element occurs twice exactly when every element occurs once. */
  lemma {:induction false} DistinctIffSingle<K>(s: seq<K>)
    ensures Distinct(s) <==> forall x :: multiset(s)[x] <= 1
  {
    if s != [] {
      var init, last := s[..|s| - 1], s[|s| - 1];
      assert s == init + [last];
      DistinctIffSingle(init);
      if Distinct(s) {
        assert Distinct(init) by {
          forall i, j | 0 <= i < j < |init| ensures init[i] != init[j] {
            assert init[i] == s[i] && init[j] == s[j];
          }
        }
        assert last !in init;
      } else {
        var i, j :| 0 <= i < j < |s| && s[i] == s[j];
        var x := s[i];
        if j < |s| - 1 {
          assert init[i] == x && init[j] == x;
          assert !Distinct(init);
          var y :| multiset(init)[y] > 1;
          assert multiset(s)[y] >= multiset(init)[y];
        } else {
          assert x in init by { assert init[i] == x; }
          assert multiset(s)[x] == multiset(init)[x] + 1;
        }
      }
    }
  }

  /** A permutation of a list without repeats has no repeats. */
  lemma DistinctPermutation<K>(r: seq<K>, s: seq<K>)
    requires multiset(r) == multiset(s) && Distinct(s)
    ensures Distinct(r)
  {
    DistinctIffSingle(s);
    DistinctIffSingle(r);
  }

}
