/** Deterministic enumeration of keyed records, ordering by a numeric key
    (what the database's `orderBy` gives) and sums over keyed records (what
    the database's `aggregate({ _sum })` gives). */
module Ordering {

  predicate IsLeast(m: nat, s: set<nat>) {
    m in s && forall x :: x in s ==> m <= x
  }

  /** A finite non-empty set of naturals has a least element. */
  lemma {:induction false} MinExists(s: set<nat>)
    requires s != {}
    ensures exists m :: IsLeast(m, s)
  {
    var y :| y in s;
    var rest := s - {y};
    if rest == {} {
      assert s == {y};
      assert IsLeast(y, s);
    } else {
      MinExists(rest);
      var m :| IsLeast(m, rest);
      if y < m {
        assert IsLeast(y, s) by {
          forall x | x in s ensures y <= x {
            if x != y { assert x in rest; }
          }
        }
      } else {
        assert IsLeast(m, s) by {
          forall x | x in s ensures m <= x {
            if x != y { assert x in rest; }
          }
        }
      }
    }
  }

  function MinOf(s: set<nat>): (m: nat)
    requires s != {}
    ensures m in s && forall x :: x in s ==> m <= x
  {
    MinExists(s);
    var m :| IsLeast(m, s);
    m
  }

  predicate SortedBy<T>(s: seq<T>, key: T -> int) {
    forall i, j :: 0 <= i < j < |s| ==> key(s[i]) <= key(s[j])
  }

  function InsertBy<T>(x: T, s: seq<T>, key: T -> int): (r: seq<T>)
    requires SortedBy(s, key)
    ensures SortedBy(r, key)
    ensures multiset(r) == multiset(s) + multiset{x}
    ensures |r| == |s| + 1 && (r[0] == x || (s != [] && r[0] == s[0]))
  {
    if s == [] || key(x) <= key(s[0]) then
      var r := [x] + s;
      assert SortedBy(r, key) by {
        forall i, j | 0 <= i < j < |r| ensures key(r[i]) <= key(r[j]) {
          assert r[j] == s[j - 1];
          if i > 0 {
            assert r[i] == s[i - 1];
          } else if j > 1 {
            assert key(s[0]) <= key(s[j - 1]);
          }
        }
      }
      r
    else
      var rest := InsertBy(x, s[1..], key);
      assert s == [s[0]] + s[1..];
      assert key(s[0]) <= key(rest[0]) by {
        if rest[0] != x {
          assert rest[0] == s[1];
        }
      }
      var r := [s[0]] + rest;
      assert SortedBy(r, key) by {
        forall i, j | 0 <= i < j < |r| ensures key(r[i]) <= key(r[j]) {
          assert r[j] == rest[j - 1];
          if i > 0 {
            assert r[i] == rest[i - 1];
          } else if j > 1 {
            assert key(rest[0]) <= key(rest[j - 1]);
          }
        }
      }
      r
  }

  /** `s` ordered by ascending `key`: a sorted permutation of `s`. */
  function SortBy<T>(s: seq<T>, key: T -> int): (r: seq<T>)
    ensures SortedBy(r, key)
    ensures multiset(r) == multiset(s)
  {
    if s == [] then []
    else
      assert s == [s[0]] + s[1..];
      InsertBy(s[0], SortBy(s[1..], key), key)
  }

  /** The elements of `s` that satisfy `p`, in their original order. */
  function Filter<T>(s: seq<T>, p: T -> bool): (r: seq<T>)
    ensures |r| <= |s|
    ensures forall i :: 0 <= i < |r| ==> r[i] in s && p(r[i])
    ensures forall i :: 0 <= i < |s| && p(s[i]) ==> s[i] in r
  {
    if s == [] then []
    else if p(s[0]) then [s[0]] + Filter(s[1..], p)
    else Filter(s[1..], p)
  }

  /** `sub` is `s` with some elements left out, the rest in the same order. */
  predicate IsSubsequence<T(==)>(sub: seq<T>, s: seq<T>)
    decreases |s|
  {
    if sub == [] then true
    else if s == [] then false
    else if sub[0] == s[0] then IsSubsequence(sub[1..], s[1..])
    else IsSubsequence(sub, s[1..])
  }

  lemma {:induction false} FilterKeepsOrder<T>(s: seq<T>, p: T -> bool)
    ensures IsSubsequence(Filter(s, p), s)
  {
    if s != [] {
      FilterKeepsOrder(s[1..], p);
      var f := Filter(s[1..], p);
      if !p(s[0]) && f != [] {
        assert p(f[0]);
      }
    }
  }

  /** Sum of `f` over the records of a keyed store, taken in key order. */
  function SumBy<V>(m: map<nat, V>, f: V -> int): int
    decreases |m|
  {
    if m == map[] then 0
    else
      var k := MinOf(m.Keys);
      assert |m - {k}| < |m| by { assert (m - {k}).Keys == m.Keys - {k}; }
      f(m[k]) + SumBy(m - {k}, f)
  }

  /** The sum does not depend on the order the records are visited in:
      any one record can be taken out first. */
  lemma {:induction false} SumByRemove<V>(m: map<nat, V>, f: V -> int, k: nat)
    requires k in m
    ensures SumBy(m, f) == f(m[k]) + SumBy(m - {k}, f)
    decreases |m|
  {
    var j := MinOf(m.Keys);
    if j != k {
      assert (m - {j}).Keys == m.Keys - {j};
      SumByRemove(m - {j}, f, k);
      var mk := m - {k};
      assert mk.Keys == m.Keys - {k};
      assert j in mk.Keys;
      assert MinOf(mk.Keys) in m.Keys;
      assert MinOf(mk.Keys) == j;
      assert m - {j} - {k} == mk - {j};
    }
  }

  /** Writing one record changes the sum by the difference of its terms. */
  lemma SumByUpdate<V>(m: map<nat, V>, f: V -> int, k: nat, v: V)
    ensures SumBy(m[k := v], f) == SumBy(m, f) - (if k in m then f(m[k]) else 0) + f(v)
  {
    SumByRemove(m[k := v], f, k);
    assert m[k := v] - {k} == m - {k};
    if k in m {
      SumByRemove(m, f, k);
    } else {
      assert m - {k} == m;
    }
  }

  /** Records whose term is zero contribute nothing. */
  lemma {:induction false} SumByZero<V>(m: map<nat, V>, f: V -> int)
    requires forall k :: k in m ==> f(m[k]) == 0
    ensures SumBy(m, f) == 0
    decreases |m|
  {
    if m != map[] {
      var k := MinOf(m.Keys);
      assert (m - {k}).Keys == m.Keys - {k};
      SumByZero(m - {k}, f);
    }
  }

  /** Non-negative terms give a non-negative sum. */
  lemma {:induction false} SumByNonNegative<V>(m: map<nat, V>, f: V -> int)
    requires forall k :: k in m ==> f(m[k]) >= 0
    ensures SumBy(m, f) >= 0
    decreases |m|
  {
    if m != map[] {
      var k := MinOf(m.Keys);
      assert (m - {k}).Keys == m.Keys - {k};
      SumByNonNegative(m - {k}, f);
    }
  }

  /** Inserting under a new key grows a map by one entry. */
  lemma MapInsertGrows<V>(m: map<nat, V>, k: nat, v: V)
    requires k !in m
    ensures |m[k := v]| == |m| + 1
  {
    assert m[k := v].Keys == m.Keys + {k};
    assert |m.Keys + {k}| == |m.Keys| + 1;
  }

  /** The keys of the records of `m` that satisfy `p`. */
  function KeysSatisfying<V>(m: map<nat, V>, p: V -> bool): set<nat> {
    set k | k in m && p(m[k])
  }

  /** The keys of the records of `m` that satisfy `p`, each exactly once,
      in ascending key order. */
  function KeysWhere<V>(m: map<nat, V>, p: V -> bool): (r: seq<nat>)
    ensures multiset(r) == multiset(KeysSatisfying(m, p))
    decreases |m|
  {
    if m == map[] then
      assert KeysSatisfying(m, p) == {};
      []
    else
      var k := MinOf(m.Keys);
      var m' := m - {k};
      assert m'.Keys == m.Keys - {k};
      var rest := KeysWhere(m', p);
      KeysSatisfyingRemove(m, p, k);
      if p(m[k]) then
        MultisetOfSetInsert(KeysSatisfying(m', p), k);
        [k] + rest
      else
        rest
  }

  /** Taking one record out of the store takes its key out of the
      selection, if it was there. */
  lemma KeysSatisfyingRemove<V>(m: map<nat, V>, p: V -> bool, k: nat)
    requires k in m
    ensures k !in KeysSatisfying(m - {k}, p)
    ensures p(m[k]) ==> KeysSatisfying(m, p) == KeysSatisfying(m - {k}, p) + {k}
    ensures !p(m[k]) ==> KeysSatisfying(m, p) == KeysSatisfying(m - {k}, p)
  {
  }

  lemma MultisetOfSetInsert(s: set<nat>, k: nat)
    requires k !in s
    ensures multiset(s + {k}) == multiset(s) + multiset{k}
  {
    forall x ensures multiset(s + {k})[x] == (multiset(s) + multiset{k})[x] {
    }
  }

  /** A query with a `where` and an `orderBy`: the keys of the records
      that satisfy `p`, each exactly once, ordered by `key`. */
  function SelectSorted<V>(m: map<nat, V>, p: V -> bool, key: nat -> int): (r: seq<nat>)
    ensures multiset(r) == multiset(KeysSatisfying(m, p))
    ensures forall i :: 0 <= i < |r| ==> r[i] in m && p(m[r[i]])
    ensures SortedBy(r, key)
  {
    var r := SortBy(KeysWhere(m, p), key);
    assert forall i :: 0 <= i < |r| ==> r[i] in KeysSatisfying(m, p) by {
      forall i | 0 <= i < |r| ensures r[i] in KeysSatisfying(m, p) {
        assert r[i] in multiset(r);
      }
    }
    r
  }
}
