/** Generic sequence helpers: the JavaScript array operations the dashboard relies on
    (filter, find, map, slice and a stable sort by a numeric key), each stated once
    together with the properties the pages depend on. */
module Collections {

  datatype Option<+T> = None | Some(value: T)

  /** No value occurs twice. */
  predicate NoDup<T(==)>(s: seq<T>) {
    forall i, j :: 0 <= i < j < |s| ==> s[i] != s[j]
  }

  /** Array.prototype.filter: keeps the elements satisfying p, in their order. */
  function Filter<T>(s: seq<T>, p: T -> bool): (r: seq<T>)
    ensures |r| <= |s|
    decreases |s|
  {
    if |s| == 0 then []
    else Filter(s[..|s| - 1], p) + (if p(s[|s| - 1]) then [s[|s| - 1]] else [])
  }

  /** What filter keeps: only elements that pass p, drawn from s with no element repeated
      more often than in s, and every element of s that passes. */
  lemma {:induction false} FilterSpec<T>(s: seq<T>, p: T -> bool)
    ensures forall i :: 0 <= i < |Filter(s, p)| ==> p(Filter(s, p)[i])
    ensures multiset(Filter(s, p)) <= multiset(s)
    ensures forall i :: 0 <= i < |s| && p(s[i]) ==> s[i] in Filter(s, p)
    decreases |s|
  {
    if |s| > 0 {
      var s' := s[..|s| - 1];
      assert s == s' + [s[|s| - 1]];
      FilterSpec(s', p);
      forall i | 0 <= i < |s| && p(s[i]) ensures s[i] in Filter(s, p) {
        if i < |s| - 1 {
          assert s[i] == s'[i];
        }
      }
    }
  }

  /** Membership in a filter's result: exactly the elements of s that pass p, none more
      often than in s. */
  lemma FilterMembers<T>(s: seq<T>, p: T -> bool)
    ensures multiset(Filter(s, p)) <= multiset(s)
    ensures forall x :: x in Filter(s, p) <==> x in s && p(x)
  {
    FilterSpec(s, p);
    forall x | x in Filter(s, p) ensures x in s {
      assert x in multiset(Filter(s, p));
    }
  }

  lemma {:induction false} FilterAppend<T>(a: seq<T>, b: seq<T>, p: T -> bool)
    ensures Filter(a + b, p) == Filter(a, p) + Filter(b, p)
    decreases |b|
  {
    if |b| == 0 {
      assert a + b == a;
    } else {
      var b' := b[..|b| - 1];
      assert (a + b)[..|a + b| - 1] == a + b';
      assert (a + b)[|a + b| - 1] == b[|b| - 1];
      FilterAppend(a, b', p);
    }
  }

  /** Filtering by p and by its negation splits s: the two parts together are s, counted with multiplicity. */
  lemma {:induction false} FilterComplement<T>(s: seq<T>, p: T -> bool, q: T -> bool)
    requires forall x :: q(x) == !p(x)
    ensures |Filter(s, p)| + |Filter(s, q)| == |s|
    ensures multiset(Filter(s, p)) + multiset(Filter(s, q)) == multiset(s)
    decreases |s|
  {
    if |s| > 0 {
      var s' := s[..|s| - 1];
      assert s == s' + [s[|s| - 1]];
      FilterComplement(s', p, q);
    }
  }

  /** A filter that every element passes is the identity. */
  lemma {:induction false} FilterAll<T>(s: seq<T>, p: T -> bool)
    requires forall i :: 0 <= i < |s| ==> p(s[i])
    ensures Filter(s, p) == s
    decreases |s|
  {
    if |s| > 0 {
      var s' := s[..|s| - 1];
      assert s == s' + [s[|s| - 1]];
      FilterAll(s', p);
    }
  }

  /** A filter that no element passes is empty. */
  lemma {:induction false} FilterNone<T>(s: seq<T>, p: T -> bool)
    requires forall i :: 0 <= i < |s| ==> !p(s[i])
    ensures Filter(s, p) == []
    decreases |s|
  {
    if |s| > 0 {
      FilterNone(s[..|s| - 1], p);
    }
  }

  /** Filters by predicates that agree on the elements of s give the same result. */
  lemma {:induction false} FilterCongruent<T>(s: seq<T>, p: T -> bool, q: T -> bool)
    requires forall i :: 0 <= i < |s| ==> p(s[i]) == q(s[i])
    ensures Filter(s, p) == Filter(s, q)
    decreases |s|
  {
    if |s| > 0 {
      FilterCongruent(s[..|s| - 1], p, q);
    }
  }

  /** Filtering a duplicate-free sequence keeps it duplicate-free. */
  lemma {:induction false} FilterNoDup<T>(s: seq<T>, p: T -> bool)
    requires NoDup(s)
    ensures NoDup(Filter(s, p))
    decreases |s|
  {
    if |s| > 0 {
      var s' := s[..|s| - 1];
      var last := s[|s| - 1];
      FilterNoDup(s', p);
      FilterSpec(s', p);
      assert last !in s';
      var f := Filter(s', p);
      assert last !in multiset(f);
    }
  }

  /** A filter that rejects some element is strictly shorter than its input. */
  lemma {:induction false} FilterShorter<T>(s: seq<T>, p: T -> bool, k: nat)
    requires k < |s| && !p(s[k])
    ensures |Filter(s, p)| < |s|
    decreases |s|
  {
    var s' := s[..|s| - 1];
    if k < |s| - 1 {
      FilterShorter(s', p, k);
    }
  }

  /** A filter keeps every element exactly when every element passes it. */
  lemma FilterKeepsAll<T>(s: seq<T>, p: T -> bool)
    ensures |Filter(s, p)| == |s| <==> forall i :: 0 <= i < |s| ==> p(s[i])
  {
    if forall i :: 0 <= i < |s| ==> p(s[i]) {
      FilterAll(s, p);
    } else {
      var k :| 0 <= k < |s| && !p(s[k]);
      FilterShorter(s, p, k);
    }
  }

  /** Filtering by predicates that exclude each other keeps at most as many elements in
      total as there are. */
  lemma {:induction false} FilterDisjoint<T>(s: seq<T>, p: T -> bool, q: T -> bool)
    requires forall i :: 0 <= i < |s| ==> !(p(s[i]) && q(s[i]))
    ensures |Filter(s, p)| + |Filter(s, q)| <= |s|
    decreases |s|
  {
    if |s| > 0 {
      FilterDisjoint(s[..|s| - 1], p, q);
    }
  }

  /** Array.prototype.findIndex, as an option: the first index whose element satisfies p. */
  function FirstIndex<T>(s: seq<T>, p: T -> bool): (r: Option<nat>)
    ensures r.Some? ==> r.value < |s| && p(s[r.value]) && forall j :: 0 <= j < r.value ==> !p(s[j])
    ensures r.None? ==> forall j :: 0 <= j < |s| ==> !p(s[j])
    decreases |s|
  {
    if |s| == 0 then None
    else if p(s[0]) then Some(0)
    else match FirstIndex(s[1..], p)
      case None => None
      case Some(i) => Some(i + 1)
  }

  /** Array.prototype.find: the first element satisfying p. */
  function Find<T>(s: seq<T>, p: T -> bool): (r: Option<T>)
    ensures r.Some? <==> exists i :: 0 <= i < |s| && p(s[i])
    ensures r.Some? ==> r.value in s && p(r.value)
    ensures forall i :: (0 <= i < |s| && p(s[i]) && forall j :: 0 <= j < i ==> !p(s[j])) ==> r == Some(s[i])
  {
    match FirstIndex(s, p)
    case None => None
    case Some(i) => Some(s[i])
  }

  /** Array.prototype.map. */
  function Map<T, U>(s: seq<T>, f: T -> U): (r: seq<U>)
    ensures |r| == |s|
  {
    seq(|s|, i requires 0 <= i < |s| => f(s[i]))
  }

  /** The index normalisation of Array.prototype.slice: a negative index counts from the end,
      and the result is clamped to [0, len]. */
  function ClampIndex(i: int, len: nat): (r: nat)
    ensures r <= len
  {
    if i < 0 then (if len + i < 0 then 0 else len + i)
    else if i > len then len
    else i
  }

  /** Array.prototype.slice(start, end). */
  function Slice<T>(s: seq<T>, start: int, end: int): seq<T>
  {
    var a := ClampIndex(start, |s|);
    var b := ClampIndex(end, |s|);
    if a < b then s[a..b] else []
  }

  predicate SortedBy<T>(s: seq<T>, key: T -> int) {
    forall i, j :: 0 <= i < j < |s| ==> key(s[i]) <= key(s[j])
  }

  /** Inserts x before the first element whose key is not smaller than x's. */
  function InsertByKey<T>(x: T, s: seq<T>, key: T -> int): (r: seq<T>)
    ensures |r| == |s| + 1
    ensures multiset(r) == multiset(s) + multiset{x}
    decreases |s|
  {
    if |s| == 0 then [x]
    else if key(x) <= key(s[0]) then [x] + s
    else
      assert s == [s[0]] + s[1..];
      [s[0]] + InsertByKey(x, s[1..], key)
  }

  /** A stable sort ascending by key: what Array.prototype.sort computes (it is stable since
      ECMAScript 2019) with the comparator (a, b) => key(a) - key(b). */
  function SortByKey<T>(s: seq<T>, key: T -> int): (r: seq<T>)
    ensures |r| == |s|
    ensures multiset(r) == multiset(s)
    decreases |s|
  {
    if |s| == 0 then []
    else
      assert s == [s[0]] + s[1..];
      InsertByKey(s[0], SortByKey(s[1..], key), key)
  }

  lemma {:induction false} InsertByKeySorted<T>(x: T, s: seq<T>, key: T -> int)
    requires SortedBy(s, key)
    ensures SortedBy(InsertByKey(x, s, key), key)
    decreases |s|
  {
    if |s| > 0 && key(x) > key(s[0]) {
      var rest := InsertByKey(x, s[1..], key);
      InsertByKeySorted(x, s[1..], key);
      forall y | y in rest
        ensures key(s[0]) <= key(y)
      {
        assert y in multiset(rest);
        assert y == x || y in s[1..];
      }
      assert InsertByKey(x, s, key) == [s[0]] + rest;
    }
  }

  lemma {:induction false} SortByKeySorted<T>(s: seq<T>, key: T -> int)
    ensures SortedBy(SortByKey(s, key), key)
    decreases |s|
  {
    if |s| > 0 {
      SortByKeySorted(s[1..], key);
      InsertByKeySorted(s[0], SortByKey(s[1..], key), key);
    }
  }

  /** The elements whose key is k, in order. */
  function WithKey<T>(s: seq<T>, key: T -> int, k: int): seq<T>
    decreases |s|
  {
    if |s| == 0 then []
    else (if key(s[0]) == k then [s[0]] else []) + WithKey(s[1..], key, k)
  }

  /** WithKey looks at the head, then at the rest. */
  lemma WithKeyCons<T>(y: T, t: seq<T>, key: T -> int, k: int)
    ensures WithKey([y] + t, key, k) == (if key(y) == k then [y] else []) + WithKey(t, key, k)
  {
    assert ([y] + t)[1..] == t;
  }

  lemma {:induction false} InsertByKeyStable<T>(x: T, s: seq<T>, key: T -> int, k: int)
    ensures WithKey(InsertByKey(x, s, key), key, k)
         == (if key(x) == k then [x] else []) + WithKey(s, key, k)
    decreases |s|
  {
    if |s| == 0 || key(x) <= key(s[0]) {
      WithKeyCons(x, s, key, k);
      assert [x] + [] == [x];
    } else {
      InsertByKeyStable(x, s[1..], key, k);
      InsertByKeyStableStep(x, s, key, k);
    }
  }

  /** The step of InsertByKeyStable past a head whose key is below x's. */
  lemma InsertByKeyStableStep<T>(x: T, s: seq<T>, key: T -> int, k: int)
    requires |s| > 0 && key(x) > key(s[0])
    requires WithKey(InsertByKey(x, s[1..], key), key, k)
          == (if key(x) == k then [x] else []) + WithKey(s[1..], key, k)
    ensures WithKey(InsertByKey(x, s, key), key, k)
         == (if key(x) == k then [x] else []) + WithKey(s, key, k)
  {
    var rest := InsertByKey(x, s[1..], key);
    var hx := if key(x) == k then [x] else [];
    var h0 := if key(s[0]) == k then [s[0]] else [];
    var w := WithKey(s[1..], key, k);
    WithKeyCons(s[0], rest, key, k);
    // s[0]'s key is below x's, so at most one of the two carries k
    if key(x) == k {
      assert key(s[0]) != k;
      assert h0 == [];
      assert h0 + w == w && h0 + (hx + w) == hx + w;
    } else {
      assert hx == [];
      assert hx + w == w && hx + (h0 + w) == h0 + w;
    }
  }



  /** Stability: for every key value, the elements carrying it keep their relative order. */
  lemma {:induction false} SortByKeyStable<T>(s: seq<T>, key: T -> int, k: int)
    ensures WithKey(SortByKey(s, key), key, k) == WithKey(s, key, k)
    decreases |s|
  {
    if |s| > 0 {
      SortByKeyStable(s[1..], key, k);
      InsertByKeyStable(s[0], SortByKey(s[1..], key), key, k);
    }
  }
}
