/** Selection and ordering of query results: the `WHERE` and `ORDER BY ... DESC`
    of the repositories, on sequences. */
module Sequences {
  import opened Common

  /** The elements of `s` that satisfy `p`, in their original order. */
  function Filter<T>(s: seq<T>, p: T -> bool): (r: seq<T>)
    ensures forall i :: 0 <= i < |r| ==> r[i] in s && p(r[i])
    ensures forall i :: 0 <= i < |s| && p(s[i]) ==> s[i] in r
    ensures |r| <= |s|
    ensures multiset(r) <= multiset(s)
  {
    if s == [] then []
    else
      assert s == [s[0]] + s[1..];
      if p(s[0]) then [s[0]] + Filter(s[1..], p) else Filter(s[1..], p)
  }

  /** Filtering keeps every occurrence of a selected element and none of the
      others. */
  lemma {:induction false} FilterCounts<T>(s: seq<T>, p: T -> bool, x: T)
    ensures multiset(Filter(s, p))[x] == if p(x) then multiset(s)[x] else 0
  {
    if s != [] {
      assert s == [s[0]] + s[1..];
      FilterCounts(s[1..], p, x);
    }
  }

    /** Filtering with predicates that agree everywhere gives the same sequence. */
  lemma {:induction false} FilterSamePredicate<T>(s: seq<T>, p: T -> bool, q: T -> bool)
    requires forall x :: p(x) == q(x)
    ensures Filter(s, p) == Filter(s, q)
  {
    if s != [] {
      FilterSamePredicate(s[1..], p, q);
    }
  }

  /** No element has a greater key than one before it. */
  ghost predicate IsSortedDesc<T>(s: seq<T>, key: T -> int) {
    forall i, j :: 0 <= i < j < |s| ==> key(s[i]) >= key(s[j])
  }

  /** Inserts `x` into a sequence sorted by descending key, ahead of the
      elements with an equal key. */
  function InsertDesc<T>(x: T, s: seq<T>, key: T -> int): (r: seq<T>)
    requires IsSortedDesc(s, key)
    ensures multiset(r) == multiset(s) + multiset{x}
    ensures IsSortedDesc(r, key)
  {
    if s == [] then [x]
    else if key(x) >= key(s[0]) then [x] + s
    else
      var rest := InsertDesc(x, s[1..], key);
      assert s == [s[0]] + s[1..];
      assert forall j :: 0 <= j < |rest| ==> key(s[0]) >= key(rest[j]) by {
        forall j | 0 <= j < |rest| ensures key(s[0]) >= key(rest[j]) {
          assert rest[j] in multiset(rest);
          if rest[j] != x {
            assert rest[j] in multiset(s[1..]);
            HeadIsMax(s, key, rest[j]);
          }
        }
      }
      [s[0]] + rest
  }

  /** Sorts by descending key; elements with equal keys keep their order. */
  function SortDesc<T>(s: seq<T>, key: T -> int): (r: seq<T>)
    ensures multiset(r) == multiset(s)
    ensures |r| == |s|
    ensures IsSortedDesc(r, key)
  {
    if s == [] then []
    else
      assert s == [s[0]] + s[1..];
      InsertDesc(s[0], SortDesc(s[1..], key), key)
  }

  /** Every element of a sequence sorted by descending key has a key no
      greater than the first element's. */
  lemma {:induction false} HeadIsMax<T>(s: seq<T>, key: T -> int, x: T)
    requires IsSortedDesc(s, key)
    requires x in s
    ensures key(x) <= key(s[0])
  {
    var k :| 0 <= k < |s| && s[k] == x;
    if k > 0 {
      assert key(s[0]) >= key(s[k]);
    }
  }

  /** A set of ids that is not empty has an element. */
  lemma {:induction false} NonEmptyHasElement(s: set<int>)
    requires s != {}
    ensures exists x :: x in s
  {
    if forall x :: x !in s {
      assert false;
    }
  }

  /** The first element of `s`, if there is one: `LIMIT 1`. */
  function First<T>(s: seq<T>): (r: Option<T>)
    ensures r.Some? <==> |s| > 0
    ensures r.Some? ==> r.value == s[0]
  {
    if s == [] then None else Some(s[0])
  }

  /** No element occurs twice. */
  predicate Distinct<T(==)>(s: seq<T>) {
    forall i, j :: 0 <= i < j < |s| ==> s[i] != s[j]
  }

  /** A sequence in which nothing occurs more than once has no repeats. */
  lemma {:induction false} CountsAtMostOneIsDistinct<T>(s: seq<T>)
    requires forall x :: multiset(s)[x] <= 1
    ensures Distinct(s)
  {
    forall i, j | 0 <= i < j < |s| ensures s[i] != s[j] {
      var x := s[i];
      assert s == s[..j] + s[j..];
      assert x == s[..j][i] && s[j] == s[j..][0];
      assert multiset(s)[x] == multiset(s[..j])[x] + multiset(s[j..])[x];
      assert multiset(s[..j])[x] >= 1;
      assert x !in s[j..];
    }
  }

  /** An element found at no two positions occurs at most once. */
  lemma {:induction false} AtMostOnce<T>(s: seq<T>, x: T)
    requires forall i, j :: 0 <= i < j < |s| && s[i] == x ==> s[j] != x
    ensures multiset(s)[x] <= 1
  {
    if s != [] {
      assert s == [s[0]] + s[1..];
      assert forall i, j :: 0 <= i < j < |s[1..]| && s[1..][i] == x ==> s[1..][j] != x by {
        forall i, j | 0 <= i < j < |s[1..]| && s[1..][i] == x ensures s[1..][j] != x {
          assert s[i + 1] == x;
        }
      }
      AtMostOnce(s[1..], x);
      if s[0] == x {
        assert x !in s[1..] by {
          forall j | 0 <= j < |s[1..]| ensures s[1..][j] != x {
            assert s[j + 1] != x;
          }
        }
      }
    }
  }

  /** `ks` lists every key of `m` exactly once, and `r` holds the value under
      each of them in the same order. */
  ghost predicate ListedBy<K(!new), V>(m: map<K, V>, r: seq<V>, ks: seq<K>) {
    |ks| == |r| && Distinct(ks) && (forall k :: k in m <==> k in ks)
    && (forall i :: 0 <= i < |ks| ==> ks[i] in m && r[i] == m[ks[i]])
  }

  /** `r` holds the values of `m` one per key, in some order of the keys. */
  ghost predicate ListsValues<K(!new), V>(m: map<K, V>, r: seq<V>) {
    exists ks: seq<K> :: ListedBy(m, r, ks)
  }

  /** The values of a hash map, one per key, in the map's iteration order
      (which the model leaves open: any key may come next). */
  method Values<K(!new), V(==)>(m: map<K, V>) returns (r: seq<V>)
    ensures ListsValues(m, r)
    ensures |r| == |m|
    ensures forall k :: k in m ==> m[k] in r
    ensures forall i :: 0 <= i < |r| ==> r[i] in m.Values
  {
    r := [];
    ghost var ks: seq<K> := [];
    var keys := m.Keys;
    while keys != {}
      invariant keys <= m.Keys
      invariant |r| + |keys| == |m|
      invariant |ks| == |r| && Distinct(ks)
      invariant forall k :: k in m ==> (k in ks <==> k !in keys)
      invariant forall i :: 0 <= i < |ks| ==> ks[i] in m && r[i] == m[ks[i]]
      invariant forall k :: k in m && k !in keys ==> m[k] in r
      invariant forall i :: 0 <= i < |r| ==> r[i] in m.Values
      decreases keys
    {
      var k :| k in keys;
      r := r + [m[k]];
      ks := ks + [k];
      keys := keys - {k};
    }
    assert ListedBy(m, r, ks);
  }
}
