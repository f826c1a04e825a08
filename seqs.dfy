/** Generic sequence operations shared by every filter, map and de-duplication
    of the model (JavaScript `Array.filter`/`map`, pandas boolean indexing,
    `apply` and `drop_duplicates`). */
module Seqs {

  /** The elements of `s` that satisfy `p`, in their original order. */
  function Filter<T>(s: seq<T>, p: T -> bool): (r: seq<T>)
    ensures |r| <= |s|
    ensures forall i :: 0 <= i < |r| ==> r[i] in s && p(r[i])
    ensures forall i :: 0 <= i < |s| && p(s[i]) ==> s[i] in r
  {
    if s == [] then []
    else if p(s[0]) then [s[0]] + Filter(s[1..], p)
    else Filter(s[1..], p)
  }

  /** `f` applied to every element of `s`. */
  function Map<T, U>(s: seq<T>, f: T -> U): (r: seq<U>)
    ensures |r| == |s|
    ensures forall i :: 0 <= i < |s| ==> r[i] == f(s[i])
  {
    seq(|s|, i requires 0 <= i < |s| => f(s[i]))
  }

  /** `xs` is `ys` with some elements deleted and the others kept in order. */
  predicate IsSubsequence<T(==)>(xs: seq<T>, ys: seq<T>)
    decreases |ys|
  {
    xs == [] ||
    (ys != [] &&
     ((xs[0] == ys[0] && IsSubsequence(xs[1..], ys[1..])) || IsSubsequence(xs, ys[1..])))
  }

  /** The number of elements of `s` that satisfy `p`. */
  function Count<T>(s: seq<T>, p: T -> bool): nat
  {
    |Filter(s, p)|
  }

  /** Keeps the first element of `s` for each key not in `seen`, dropping later
      elements whose key was already kept (pandas `drop_duplicates(keep='first')`,
      or a JavaScript `Set` built from a list, when `seen` is empty). */
  function DedupeFrom<T, K(==)>(s: seq<T>, key: T -> K, seen: set<K>): (r: seq<T>)
    ensures forall i :: 0 <= i < |r| ==> r[i] in s && key(r[i]) !in seen
  {
    if s == [] then []
    else if key(s[0]) in seen then DedupeFrom(s[1..], key, seen)
    else [s[0]] + DedupeFrom(s[1..], key, seen + {key(s[0])})
  }

  function DedupeBy<T, K(==)>(s: seq<T>, key: T -> K): seq<T>
  {
    DedupeFrom(s, key, {})
  }

  /** No two elements of `s` share a key. */
  predicate DistinctKeys<T, K(==)>(s: seq<T>, key: T -> K)
  {
    forall i, j :: 0 <= i < j < |s| ==> key(s[i]) != key(s[j])
  }

  /** No element of `s` occurs twice. */
  predicate Distinct<T(==)>(s: seq<T>)
  {
    forall i, j :: 0 <= i < j < |s| ==> s[i] != s[j]
  }

  // ----- subsequences -----

  lemma {:induction false} SubsequenceRefl<T>(s: seq<T>)
    ensures IsSubsequence(s, s)
    decreases |s|
  {
    if s != [] {
      SubsequenceRefl(s[1..]);
    }
  }

  lemma {:induction false} SubsequenceTrans<T>(a: seq<T>, b: seq<T>, c: seq<T>)
    requires IsSubsequence(a, b) && IsSubsequence(b, c)
    ensures IsSubsequence(a, c)
    decreases |c|
  {
    if a == [] {
    } else if IsSubsequence(b, c[1..]) {
      SubsequenceTrans(a, b, c[1..]);
    } else {
      // c[0] is used for b[0]
      assert b != [] && b[0] == c[0] && IsSubsequence(b[1..], c[1..]);
      if a[0] == b[0] && IsSubsequence(a[1..], b[1..]) {
        SubsequenceTrans(a[1..], b[1..], c[1..]);
      } else {
        SubsequenceTrans(a, b[1..], c[1..]);
      }
    }
  }

  /** A subsequence keeps only elements of the whole. */
  lemma {:induction false} SubsequenceMembers<T>(xs: seq<T>, ys: seq<T>)
    requires IsSubsequence(xs, ys)
    ensures forall x :: x in xs ==> x in ys
    decreases |ys|
  {
    if xs != [] {
      assert forall y :: y in ys[1..] ==> y in ys;
      if xs[0] == ys[0] && IsSubsequence(xs[1..], ys[1..]) {
        SubsequenceMembers(xs[1..], ys[1..]);
        assert forall x :: x in xs ==> x == xs[0] || x in xs[1..];
      } else {
        SubsequenceMembers(xs, ys[1..]);
      }
    }
  }

  /** What holds of every element of `ys` holds of every element of a subsequence. */
  lemma SubsequenceAll<T>(xs: seq<T>, ys: seq<T>, p: T -> bool)
    requires IsSubsequence(xs, ys)
    requires forall i :: 0 <= i < |ys| ==> p(ys[i])
    ensures forall i :: 0 <= i < |xs| ==> p(xs[i])
  {
    SubsequenceMembers(xs, ys);
    forall i | 0 <= i < |xs| ensures p(xs[i]) {
      assert xs[i] in ys;
    }
  }

  // ----- Filter -----

  /** Filtering keeps the survivors in their original order. */
  lemma {:induction false} FilterIsSubsequence<T>(s: seq<T>, p: T -> bool)
    ensures IsSubsequence(Filter(s, p), s)
    decreases |s|
  {
    if s != [] {
      FilterIsSubsequence(s[1..], p);
    }
  }

  /** A filter is the identity exactly when every element passes. */
  lemma {:induction false} FilterIdentity<T>(s: seq<T>, p: T -> bool)
    ensures Filter(s, p) == s <==> forall x :: x in s ==> p(x)
    decreases |s|
  {
    if s != [] {
      FilterIdentity(s[1..], p);
      if !p(s[0]) {
        // s[0] is missing from the result, so the result cannot be s
        assert s[0] in s && s[0] !in Filter(s, p);
      } else {
        assert forall x :: x in s ==> x == s[0] || x in s[1..];
      }
    }
  }

  /** A filter is empty exactly when no element passes. */
  lemma {:induction false} FilterEmpty<T>(s: seq<T>, p: T -> bool)
    ensures Filter(s, p) == [] <==> forall x :: x in s ==> !p(x)
    decreases |s|
  {
    if s != [] {
      FilterEmpty(s[1..], p);
      assert forall x :: x in s ==> x == s[0] || x in s[1..];
    }
  }

  /** A filter keeps every copy of a passing element and no copy of a failing
      one, so equal elements are never told apart. */
  lemma {:induction false} FilterMultiset<T>(s: seq<T>, p: T -> bool)
    ensures forall x :: multiset(Filter(s, p))[x] == if p(x) then multiset(s)[x] else 0
    decreases |s|
  {
    if s != [] {
      FilterMultiset(s[1..], p);
      assert s == [s[0]] + s[1..];
      assert multiset(s) == multiset([s[0]]) + multiset(s[1..]);
      if p(s[0]) {
        assert multiset(Filter(s, p)) == multiset([s[0]]) + multiset(Filter(s[1..], p));
      }
    }
  }

  /** Filtering twice with the same predicate is filtering once. */
  lemma FilterIdempotent<T>(s: seq<T>, p: T -> bool)
    ensures Filter(Filter(s, p), p) == Filter(s, p)
  {
    FilterIdentity(Filter(s, p), p);
  }

  /** Filtering a duplicate-free sequence leaves it duplicate-free. */
  lemma {:induction false} FilterDistinct<T>(s: seq<T>, p: T -> bool)
    requires Distinct(s)
    ensures Distinct(Filter(s, p))
    decreases |s|
  {
    if s != [] {
      var rest := Filter(s[1..], p);
      FilterDistinct(s[1..], p);
      if p(s[0]) {
        var r := [s[0]] + rest;
        assert s[0] !in s[1..];
        forall i, j | 0 <= i < j < |r| ensures r[i] != r[j] {
          if i == 0 {
            assert r[j] == rest[j - 1] && r[j] in s[1..];
          } else {
            assert r[i] == rest[i - 1] && r[j] == rest[j - 1];
          }
        }
      }
    }
  }

  /** Filtering keeps keys distinct. */
  lemma {:induction false} FilterDistinctKeys<T, K>(s: seq<T>, p: T -> bool, key: T -> K)
    requires DistinctKeys(s, key)
    ensures DistinctKeys(Filter(s, p), key)
    decreases |s|
  {
    if s != [] {
      var rest := Filter(s[1..], p);
      FilterDistinctKeys(s[1..], p, key);
      if p(s[0]) {
        var r := [s[0]] + rest;
        forall i, j | 0 <= i < j < |r| ensures key(r[i]) != key(r[j]) {
          if i == 0 {
            assert r[j] == rest[j - 1] && r[j] in s[1..];
            var k :| 0 <= k < |s[1..]| && s[1..][k] == r[j];
            assert s[k + 1] == r[j];
          } else {
            assert r[i] == rest[i - 1] && r[j] == rest[j - 1];
          }
        }
      }
    }
  }

  /** Predicates that agree on the elements of `s` filter it alike. */
  lemma {:induction false} FilterExt<T>(s: seq<T>, p: T -> bool, q: T -> bool)
    requires forall x :: x in s ==> p(x) == q(x)
    ensures Filter(s, p) == Filter(s, q)
    decreases |s|
  {
    if s != [] {
      assert forall x :: x in s[1..] ==> x in s;
      FilterExt(s[1..], p, q);
    }
  }

  /** Two successive filters are one filter by the conjunction. */
  lemma {:induction false} FilterFilter<T>(s: seq<T>, p: T -> bool, q: T -> bool, pq: T -> bool)
    requires forall x :: x in s ==> pq(x) == (p(x) && q(x))
    ensures Filter(Filter(s, p), q) == Filter(s, pq)
    decreases |s|
  {
    if s != [] {
      assert forall x :: x in s[1..] ==> x in s;
      FilterFilter(s[1..], p, q, pq);
    }
  }

  lemma {:induction false} FilterAppend<T>(a: seq<T>, b: seq<T>, p: T -> bool)
    ensures Filter(a + b, p) == Filter(a, p) + Filter(b, p)
    decreases |a|
  {
    if a != [] {
      assert (a + b)[0] == a[0] && (a + b)[1..] == a[1..] + b;
      FilterAppend(a[1..], b, p);
      if p(a[0]) {
        assert Filter(a + b, p) == [a[0]] + Filter(a[1..] + b, p);
      } else {
        assert Filter(a + b, p) == Filter(a[1..] + b, p);
      }
    } else {
      assert a + b == b;
    }
  }

  /** Mapping a sequence with a first element maps that element first. */
  lemma MapCons<T, U>(x: T, rest: seq<T>, f: T -> U)
    ensures Map([x] + rest, f) == [f(x)] + Map(rest, f)
  {
  }

  /** Filtering after a map is mapping after filtering by the composed predicate. */
  lemma {:induction false} FilterMap<T, U>(s: seq<T>, f: T -> U, p: U -> bool, q: T -> bool)
    requires forall x :: x in s ==> q(x) == p(f(x))
    ensures Filter(Map(s, f), p) == Map(Filter(s, q), f)
    decreases |s|
  {
    if s != [] {
      var x, rest := s[0], s[1..];
      assert s == [x] + rest;
      MapCons(x, rest, f);
      assert forall y :: y in rest ==> y in s;
      FilterMap(rest, f, p, q);
      if q(x) {
        MapCons(x, Filter(rest, q), f);
      }
    }
  }

  /** Two successive maps are one map by the composition. */
  lemma MapMap<T, U, V>(s: seq<T>, f: T -> U, g: U -> V, fg: T -> V)
    requires forall x :: x in s ==> fg(x) == g(f(x))
    ensures Map(Map(s, f), g) == Map(s, fg)
  {
    assert forall i :: 0 <= i < |s| ==> s[i] in s;
  }

  /** Maps that agree on the elements of `s` map it alike. */
  lemma MapExt<T, U>(s: seq<T>, f: T -> U, g: T -> U)
    requires forall x :: x in s ==> f(x) == g(x)
    ensures Map(s, f) == Map(s, g)
  {
    assert forall i :: 0 <= i < |s| ==> s[i] in s;
  }

  lemma {:induction false} CountAppend<T>(a: seq<T>, b: seq<T>, p: T -> bool)
    ensures Count(a + b, p) == Count(a, p) + Count(b, p)
  {
    FilterAppend(a, b, p);
  }

  // ----- DedupeFrom -----

  /** De-duplication keeps the survivors in their original order. */
  lemma {:induction false} DedupeIsSubsequence<T, K>(s: seq<T>, key: T -> K, seen: set<K>)
    ensures IsSubsequence(DedupeFrom(s, key, seen), s)
    decreases |s|
  {
    if s != [] {
      if key(s[0]) in seen {
        DedupeIsSubsequence(s[1..], key, seen);
      } else {
        DedupeIsSubsequence(s[1..], key, seen + {key(s[0])});
      }
    }
  }

  /** No key is kept twice. */
  lemma {:induction false} DedupeDistinct<T, K>(s: seq<T>, key: T -> K, seen: set<K>)
    ensures DistinctKeys(DedupeFrom(s, key, seen), key)
    decreases |s|
  {
    if s != [] {
      if key(s[0]) in seen {
        DedupeDistinct(s[1..], key, seen);
      } else {
        var rest := DedupeFrom(s[1..], key, seen + {key(s[0])});
        DedupeDistinct(s[1..], key, seen + {key(s[0])});
        var r := [s[0]] + rest;
        forall i, j | 0 <= i < j < |r| ensures key(r[i]) != key(r[j]) {
          if i == 0 {
            assert r[j] == rest[j - 1] && r[j] in rest;
          } else {
            assert r[i] == rest[i - 1] && r[j] == rest[j - 1];
          }
        }
      }
    }
  }

  /** The first element of `s` with each key not in `seen` is kept. */
  lemma {:induction false} DedupeKeepsFirst<T, K>(s: seq<T>, key: T -> K, seen: set<K>, i: nat)
    requires i < |s| && key(s[i]) !in seen
    requires forall j :: 0 <= j < i ==> key(s[j]) != key(s[i])
    ensures s[i] in DedupeFrom(s, key, seen)
    decreases |s|
  {
    if i > 0 {
      var seen' := if key(s[0]) in seen then seen else seen + {key(s[0])};
      assert s[1..][i - 1] == s[i];
      DedupeKeepsFirst(s[1..], key, seen', i - 1);
    }
  }

  /** Every key of `s` outside `seen` is the key of some kept element. */
  lemma {:induction false} DedupeCoversKeys<T, K>(s: seq<T>, key: T -> K, seen: set<K>, x: T)
    requires x in s && key(x) !in seen
    ensures exists y :: y in DedupeFrom(s, key, seen) && key(y) == key(x)
    decreases |s|
  {
    if key(s[0]) == key(x) {
      assert s[0] in DedupeFrom(s, key, seen);
    } else {
      assert x in s[1..];
      var seen' := if key(s[0]) in seen then seen else seen + {key(s[0])};
      DedupeCoversKeys(s[1..], key, seen', x);
    }
  }

  /** De-duplicating after a map is mapping after de-duplicating by the composed key. */
  lemma {:induction false} DedupeMap<T, U, K>(s: seq<T>, f: T -> U, key: U -> K, fkey: T -> K, seen: set<K>)
    requires forall x :: x in s ==> fkey(x) == key(f(x))
    ensures DedupeFrom(Map(s, f), key, seen) == Map(DedupeFrom(s, fkey, seen), f)
    decreases |s|
  {
    if s != [] {
      var x, rest := s[0], s[1..];
      assert s == [x] + rest;
      MapCons(x, rest, f);
      assert forall y :: y in rest ==> y in s;
      if fkey(x) in seen {
        DedupeMap(rest, f, key, fkey, seen);
      } else {
        DedupeMap(rest, f, key, fkey, seen + {fkey(x)});
        MapCons(x, DedupeFrom(rest, fkey, seen + {fkey(x)}), f);
      }
    }
  }

  /** Keys that agree on the elements of `s` de-duplicate it alike. */
  lemma {:induction false} DedupeExt<T, K>(s: seq<T>, k1: T -> K, k2: T -> K, seen: set<K>)
    requires forall x :: x in s ==> k1(x) == k2(x)
    ensures DedupeFrom(s, k1, seen) == DedupeFrom(s, k2, seen)
    decreases |s|
  {
    if s != [] {
      assert forall x :: x in s[1..] ==> x in s;
      if k1(s[0]) in seen {
        DedupeExt(s[1..], k1, k2, seen);
      } else {
        DedupeExt(s[1..], k1, k2, seen + {k1(s[0])});
      }
    }
  }

  /** Where `s[i]` sits in `Filter(s, p)` when it passes and no earlier
      passing element shares its key. */
  lemma FilterFirstPosition<T, K>(s: seq<T>, p: T -> bool, key: T -> K, i: nat) returns (k: nat)
    requires i < |s| && p(s[i])
    requires forall j :: 0 <= j < i && p(s[j]) ==> key(s[j]) != key(s[i])
    ensures k < |Filter(s, p)| && Filter(s, p)[k] == s[i]
    ensures forall j :: 0 <= j < k ==> key(Filter(s, p)[j]) != key(s[i])
  {
    var before := Filter(s[..i], p);
    assert s == s[..i] + s[i..];
    FilterAppend(s[..i], s[i..], p);
    assert s[i..] == [s[i]] + s[i + 1..];
    assert Filter(s[i..], p) == [s[i]] + Filter(s[i + 1..], p);
    k := |before|;
    forall j | 0 <= j < k ensures key(Filter(s, p)[j]) != key(s[i]) {
      assert Filter(s, p)[j] == before[j];
      assert before[j] in s[..i];
      var j' :| 0 <= j' < i && s[..i][j'] == before[j];
    }
  }

  /** After a filter, a de-duplication and a second filter, the first passing
      element with its key is still there when it passes the second filter. */
  lemma FilterDedupeKeepsFirst<T, K>(s: seq<T>, p: T -> bool, key: T -> K, q: T -> bool, i: nat)
    requires i < |s| && p(s[i]) && q(s[i])
    requires forall j :: 0 <= j < i && p(s[j]) ==> key(s[j]) != key(s[i])
    ensures s[i] in Filter(DedupeBy(Filter(s, p), key), q)
  {
    var k := FilterFirstPosition(s, p, key, i);
    DedupeKeepsFirst(Filter(s, p), key, {}, k);
    var d := DedupeBy(Filter(s, p), key);
    var m :| 0 <= m < |d| && d[m] == s[i];
  }

  /** Two passing elements with different keys survive a filter, a
      de-duplication and a second filter. */
  lemma FilterDedupeTwo<T, K>(a: T, b: T, p: T -> bool, key: T -> K, q: T -> bool)
    requires p(a) && p(b) && q(a) && q(b) && key(a) != key(b)
    ensures Filter(DedupeBy(Filter([a, b], p), key), q) == [a, b]
  {
    var s := [a, b];
    assert s[1..] == [b] && [b][1..] == [];
    FilterIdentity(s, p);
    assert DedupeFrom([b], key, {key(a)}) == [b] + DedupeFrom([], key, {key(a), key(b)});
    var none: set<K> := {};
    assert none + {key(a)} == {key(a)};
    assert DedupeFrom(s, key, none) == [a] + DedupeFrom([b], key, {key(a)});
    FilterIdentity(s, q);
  }
}
