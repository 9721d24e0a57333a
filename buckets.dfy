/** Grouping a sequence by a key, as the calendar index and the time-slot
    histogram both do: the elements with a given key in their original order,
    the keys in order of first occurrence, and the fact that the groups of
    distinct keys together account for every element exactly once. */
module Buckets {

  /** No key occurs twice. */
  predicate NoDup<K(==,!new)>(ks: seq<K>)
  {
    forall i, j :: 0 <= i < j < |ks| ==> ks[i] != ks[j]
  }

  /** The keys that occur in `s`. */
  function KeysOf<T, K(==,!new)>(s: seq<T>, key: T -> K): set<K>
  {
    set i | 0 <= i < |s| :: key(s[i])
  }

  lemma KeysOfSnoc<T, K(!new)>(p: seq<T>, x: T, key: T -> K)
    ensures KeysOf(p + [x], key) == KeysOf(p, key) + {key(x)}
  {
    var s := p + [x];
    forall k | k in KeysOf(s, key) ensures k in KeysOf(p, key) + {key(x)} {
      var i :| 0 <= i < |s| && key(s[i]) == k;
      if i < |p| { assert s[i] == p[i]; }
    }
    forall k | k in KeysOf(p, key) ensures k in KeysOf(s, key) {
      var i :| 0 <= i < |p| && key(p[i]) == k;
      assert s[i] == p[i];
    }
    assert s[|p|] == x;
  }

  /** The elements of `s` whose key is `k`, in their order in `s`. */
  function Select<T(==,!new), K(==,!new)>(s: seq<T>, key: T -> K, k: K): (r: seq<T>)
    ensures |r| <= |s|
    ensures forall x :: x in r <==> x in s && key(x) == k
    decreases |s|
  {
    if s == [] then []
    else
      var last := s[|s| - 1];
      assert s == s[..|s| - 1] + [last];
      Select(s[..|s| - 1], key, k) + (if key(last) == k then [last] else [])
  }

  /** Selecting after one more element. */
  lemma SelectSnoc<T(!new), K(!new)>(p: seq<T>, x: T, key: T -> K, k: K)
    ensures Select(p + [x], key, k) == Select(p, key, k) + (if key(x) == k then [x] else [])
  {
    assert (p + [x])[..|p + [x]| - 1] == p;
  }

  /** Selecting from a concatenation selects from each part, in order. */
  lemma {:induction false} SelectAppend<T(!new), K(!new)>(a: seq<T>, b: seq<T>, key: T -> K, k: K)
    ensures Select(a + b, key, k) == Select(a, key, k) + Select(b, key, k)
    decreases |b|
  {
    if b == [] {
      assert a + b == a;
    } else {
      var b', y := b[..|b| - 1], b[|b| - 1];
      var e := if key(y) == k then [y] else [];
      calc {
        Select(a + b, key, k);
        { assert a + b == (a + b') + [y]; }
        Select((a + b') + [y], key, k);
        { SelectSnoc(a + b', y, key, k); }
        Select(a + b', key, k) + e;
        { SelectAppend(a, b', key, k); }
        Select(a, key, k) + Select(b', key, k) + e;
        { assert b == b' + [y]; SelectSnoc(b', y, key, k); }
        Select(a, key, k) + Select(b, key, k);
      }
    }
  }

  /** A group is empty exactly when its key does not occur. */
  lemma SelectEmpty<T(!new), K(!new)>(s: seq<T>, key: T -> K, k: K)
    ensures Select(s, key, k) == [] <==> k !in KeysOf(s, key)
  {
    var r := Select(s, key, k);
    if k in KeysOf(s, key) {
      var i :| 0 <= i < |s| && key(s[i]) == k;
      assert s[i] in r;
    }
    if r != [] {
      assert r[0] in r;
      var i :| 0 <= i < |s| && s[i] == r[0];
      assert key(s[i]) == k;
    }
  }

  /** Number of times `k` occurs in `ks`. */
  function Occurrences<K(==,!new)>(ks: seq<K>, k: K): (n: nat)
    ensures n == 0 <==> k !in ks
  {
    if ks == [] then 0 else (if ks[0] == k then 1 else 0) + Occurrences(ks[1..], k)
  }

  lemma {:induction false} OccurrencesOfDistinct<K(!new)>(ks: seq<K>, k: K)
    requires NoDup(ks)
    requires k in ks
    ensures Occurrences(ks, k) == 1
  {
    assert NoDup(ks[1..]) by {
      forall i, j | 0 <= i < j < |ks[1..]| ensures ks[1..][i] != ks[1..][j] {
        assert ks[1..][i] == ks[i + 1] && ks[1..][j] == ks[j + 1];
      }
    }
    if ks[0] == k {
      forall i | 0 <= i < |ks[1..]| ensures ks[1..][i] != k {
        assert ks[1..][i] == ks[i + 1];
      }
    } else {
      OccurrencesOfDistinct(ks[1..], k);
    }
  }

  /** The total size of the groups of the keys in `ks`. */
  function SumSizes<T(==,!new), K(==,!new)>(ks: seq<K>, s: seq<T>, key: T -> K): nat
  {
    if ks == [] then 0 else |Select(s, key, ks[0])| + SumSizes(ks[1..], s, key)
  }

  lemma {:induction false} SumSizesNil<T(!new), K(!new)>(ks: seq<K>, key: T -> K)
    ensures SumSizes(ks, [], key) == 0
  {
    if ks != [] { SumSizesNil(ks[1..], key); }
  }

  lemma {:induction false} SumSizesSnoc<T(!new), K(!new)>(ks: seq<K>, p: seq<T>, x: T, key: T -> K)
    ensures SumSizes(ks, p + [x], key) == SumSizes(ks, p, key) + Occurrences(ks, key(x))
  {
    var s := p + [x];
    assert s[..|s| - 1] == p;
    if ks != [] { SumSizesSnoc(ks[1..], p, x, key); }
  }

  /** The groups of distinct keys that cover every key of `s` together hold
      exactly |s| elements: each element is in exactly one of them. */
  lemma {:induction false} SumSizesIsLength<T(!new), K(!new)>(ks: seq<K>, s: seq<T>, key: T -> K)
    requires NoDup(ks)
    requires forall i :: 0 <= i < |s| ==> key(s[i]) in ks
    ensures SumSizes(ks, s, key) == |s|
    decreases |s|
  {
    if s == [] {
      SumSizesNil(ks, key);
    } else {
      var p, x := s[..|s| - 1], s[|s| - 1];
      assert s == p + [x];
      assert forall i :: 0 <= i < |p| ==> p[i] == s[i];
      SumSizesIsLength(ks, p, key);
      SumSizesSnoc(ks, p, x, key);
      OccurrencesOfDistinct(ks, key(x));
    }
  }

  /** The keys of `s`, each once, in the order in which they first occur. */
  function FirstOccurrences<T, K(==,!new)>(s: seq<T>, key: T -> K): (r: seq<K>)
    ensures NoDup(r)
    ensures forall k :: k in r <==> k in KeysOf(s, key)
    decreases |s|
  {
    if s == [] then []
    else
      var p, x := s[..|s| - 1], s[|s| - 1];
      assert s == p + [x];
      KeysOfSnoc(p, x, key);
      var f := FirstOccurrences(p, key);
      if key(x) in f then f else f + [key(x)]
  }

  /** The first occurrences after one more element. */
  lemma FirstOccurrencesSnoc<T, K(!new)>(p: seq<T>, x: T, key: T -> K)
    ensures FirstOccurrences(p + [x], key) ==
              if key(x) in FirstOccurrences(p, key) then FirstOccurrences(p, key)
              else FirstOccurrences(p, key) + [key(x)]
  {
    assert (p + [x])[..|p + [x]| - 1] == p;
  }

  /** Some element with key `a` comes before every element with key `b`. */
  ghost predicate OccursBefore<T, K(!new)>(s: seq<T>, key: T -> K, a: K, b: K)
  {
    exists p :: 0 <= p < |s| && key(s[p]) == a && forall q :: 0 <= q <= p ==> key(s[q]) != b
  }

  lemma OccursBeforeSnoc<T, K(!new)>(s: seq<T>, x: T, key: T -> K, a: K, b: K)
    requires OccursBefore(s, key, a, b)
    ensures OccursBefore(s + [x], key, a, b)
  {
    var p :| 0 <= p < |s| && key(s[p]) == a && forall q :: 0 <= q <= p ==> key(s[q]) != b;
    var t := s + [x];
    assert forall q :: 0 <= q <= p ==> t[q] == s[q];
    assert key(t[p]) == a;
  }

  /** Earlier keys in FirstOccurrences really do occur first. */
  lemma {:induction false} FirstOccurrencesInOrder<T, K(!new)>(s: seq<T>, key: T -> K, i: nat, j: nat)
    requires i < j < |FirstOccurrences(s, key)|
    ensures OccursBefore(s, key, FirstOccurrences(s, key)[i], FirstOccurrences(s, key)[j])
    decreases |s|
  {
    var p, x := s[..|s| - 1], s[|s| - 1];
    assert s == p + [x];
    var f := FirstOccurrences(p, key);
    var r := FirstOccurrences(s, key);
    if j < |f| {
      assert r[i] == f[i] && r[j] == f[j];
      FirstOccurrencesInOrder(p, key, i, j);
      OccursBeforeSnoc(p, x, key, f[i], f[j]);
    } else {
      assert r == f + [key(x)] && r[i] == f[i] && r[j] == key(x);
      assert f[i] in KeysOf(p, key);
      var w :| 0 <= w < |p| && key(p[w]) == f[i];
      forall q | 0 <= q <= w ensures key(s[q]) != key(x) {
        assert s[q] == p[q];
        assert key(p[q]) in KeysOf(p, key);
      }
      assert key(s[w]) == f[i];
    }
  }
}
