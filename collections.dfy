/**
 * Generic building blocks shared by the dashboard statistics and the server
 * aggregator: sums over sequences and over dictionaries, the key/value
 * listing of a dictionary (what `Object.entries` yields, in an order left
 * open), distinctness, and the in-place comparison sort behind every
 * `Array.prototype.sort` call of the core.
 */
module Collections {

  datatype Option<T> = None | Some(value: T)

  // ---------------------------------------------------------------------
  // Sums over sequences
  // ---------------------------------------------------------------------

  /** The sum of `f` over the elements of `s`. */
  function SumOver<T>(s: seq<T>, f: T -> int): int
  {
    if s == [] then 0 else SumOver(s[..|s| - 1], f) + f(s[|s| - 1])
  }

  /** The sum of `f` over the values of a list of key/value pairs. */
  function SumValues<V>(es: seq<(string, V)>, f: V -> int): int
  {
    if es == [] then 0 else SumValues(es[..|es| - 1], f) + f(es[|es| - 1].1)
  }

  lemma {:induction false} SumOverConcat<T>(a: seq<T>, b: seq<T>, f: T -> int)
    ensures SumOver(a + b, f) == SumOver(a, f) + SumOver(b, f)
    decreases |b|
  {
    if b == [] {
      assert a + b == a;
    } else {
      var b' := b[..|b| - 1];
      assert (a + b)[..|a + b| - 1] == a + b';
      SumOverConcat(a, b', f);
    }
  }

  /** Taking element `j` out of a sequence takes `f` of it out of the sum. */
  lemma SumOverRemove<T>(b: seq<T>, j: nat, f: T -> int)
    requires j < |b|
    ensures SumOver(b, f) == SumOver(b[..j] + b[j + 1..], f) + f(b[j])
  {
    assert b == b[..j] + [b[j]] + b[j + 1..];
    SumOverConcat(b[..j], [b[j]], f);
    SumOverConcat(b[..j] + [b[j]], b[j + 1..], f);
    SumOverConcat(b[..j], b[j + 1..], f);
    assert SumOver([b[j]], f) == f(b[j]) by {
      assert [b[j]][..0] == [];
    }
  }

  /** Taking element `j` out of a sequence takes one occurrence out of its multiset. */
  lemma MultisetRemove<T>(b: seq<T>, j: nat)
    requires j < |b|
    ensures multiset(b[..j] + b[j + 1..]) == multiset(b) - multiset{b[j]}
  {
    assert b == b[..j] + [b[j]] + b[j + 1..];
    assert multiset(b) == multiset(b[..j]) + multiset{b[j]} + multiset(b[j + 1..]);
  }

  /** Reordering a sequence does not change its sum. */
  lemma {:induction false} SumOverPermutation<T>(a: seq<T>, b: seq<T>, f: T -> int)
    requires multiset(a) == multiset(b)
    ensures SumOver(a, f) == SumOver(b, f)
    decreases |a|
  {
    if a == [] {
      assert |b| == |multiset(b)| == 0;
    } else {
      var x := a[|a| - 1];
      var a' := a[..|a| - 1];
      assert x in multiset(b) by {
        assert a == a' + [x];
      }
      var j :| 0 <= j < |b| && b[j] == x;
      MultisetRemove(a, |a| - 1);
      MultisetRemove(b, j);
      assert a[..|a| - 1] + a[|a|..] == a';
      SumOverPermutation(a', b[..j] + b[j + 1..], f);
      SumOverRemove(b, j, f);
    }
  }

  /**
   * A sequence of records built element by element from a list of pairs
   * has the same sum when each record carries its pair's value.
   */
  lemma {:induction false} SumOverPointwise<T, V>(s: seq<T>, f: T -> int, es: seq<(string, V)>, g: V -> int)
    requires |s| == |es|
    requires forall i :: 0 <= i < |s| ==> f(s[i]) == g(es[i].1)
    ensures SumOver(s, f) == SumValues(es, g)
    decreases |s|
  {
    if s != [] {
      SumOverPointwise(s[..|s| - 1], f, es[..|es| - 1], g);
    }
  }

  /** A sum of zeros is zero. */
  lemma {:induction false} SumOverZero<T>(s: seq<T>, f: T -> int)
    requires forall i :: 0 <= i < |s| ==> f(s[i]) == 0
    ensures SumOver(s, f) == 0
    decreases |s|
  {
    if s != [] {
      SumOverZero(s[..|s| - 1], f);
    }
  }

  // ---------------------------------------------------------------------
  // Sums over dictionaries
  // ---------------------------------------------------------------------

  ghost function Pick(keys: set<string>): (k: string)
    requires keys != {}
    ensures k in keys
  {
    var k :| k in keys; k
  }

  /** The sum of `f` over the values of a dictionary. */
  ghost function TotalBy<V>(m: map<string, V>, f: V -> int): int
    decreases |m|
  {
    if m == map[] then 0
    else
      var k := Pick(m.Keys);
      assert |(m - {k}).Keys| == |m.Keys - {k}| == |m.Keys| - 1;
      f(m[k]) + TotalBy(m - {k}, f)
  }

  /** The sum does not depend on which key is taken out first. */
  lemma {:induction false} TotalByRemove<V>(m: map<string, V>, k: string, f: V -> int)
    requires k in m
    ensures TotalBy(m, f) == f(m[k]) + TotalBy(m - {k}, f)
    decreases |m|
  {
    var j := Pick(m.Keys);
    if j != k {
      assert |(m - {j}).Keys| == |m.Keys| - 1;
      TotalByRemove(m - {j}, k, f);
      TotalByRemove(m - {k}, j, f);
      assert m - {j} - {k} == m - {k} - {j};
    }
  }

  /** Setting one entry changes the sum by the difference at that entry. */
  lemma TotalByUpdate<V>(m: map<string, V>, k: string, v: V, f: V -> int)
    ensures TotalBy(m[k := v], f) == TotalBy(m - {k}, f) + f(v)
    ensures k in m ==> TotalBy(m[k := v], f) == TotalBy(m, f) - f(m[k]) + f(v)
  {
    TotalByRemove(m[k := v], k, f);
    assert m[k := v] - {k} == m - {k};
    if k in m {
      TotalByRemove(m, k, f);
    }
  }

  // ---------------------------------------------------------------------
  // Listing a dictionary (Object.entries)
  // ---------------------------------------------------------------------

  /** `es` lists every entry of `m` exactly once. */
  ghost predicate Lists<V>(es: seq<(string, V)>, m: map<string, V>)
  {
    && |es| == |m|
    && (forall i :: 0 <= i < |es| ==> es[i].0 in m && es[i].1 == m[es[i].0])
    && (forall i, j :: 0 <= i < j < |es| ==> es[i].0 != es[j].0)
    && (forall k :: k in m ==> exists i :: 0 <= i < |es| && es[i].0 == k)
  }

  /**
   * The key/value pairs of a dictionary. JavaScript fixes an enumeration
   * order for object keys; this model leaves the order open.
   */
  method Entries<V>(m: map<string, V>) returns (es: seq<(string, V)>)
    ensures Lists(es, m)
  {
    es := [];
    var rest := m;
    while rest != map[]
      invariant rest.Keys <= m.Keys
      invariant forall k :: k in rest ==> rest[k] == m[k]
      invariant |es| + |rest| == |m|
      invariant forall i :: 0 <= i < |es| ==> es[i].0 in m && es[i].0 !in rest && es[i].1 == m[es[i].0]
      invariant forall i, j :: 0 <= i < j < |es| ==> es[i].0 != es[j].0
      invariant forall k :: k in m && k !in rest ==> exists i :: 0 <= i < |es| && es[i].0 == k
      decreases |rest|
    {
      var k :| k in rest;
      assert |(rest - {k}).Keys| == |rest.Keys| - 1;
      ghost var es0, rest0 := es, rest;
      es := es + [(k, rest[k])];
      rest := rest - {k};
      forall k' | k' in m && k' !in rest
        ensures exists i :: 0 <= i < |es| && es[i].0 == k'
      {
        if k' == k {
          assert es[|es| - 1].0 == k';
        } else {
          assert k' !in rest0;
          var i :| 0 <= i < |es0| && es0[i].0 == k';
          assert es[i].0 == k';
        }
      }
    }
  }

  /** Dropping the last pair of a listing lists the dictionary without that key. */
  lemma ListsInit<V>(es: seq<(string, V)>, m: map<string, V>)
    requires Lists(es, m) && es != []
    ensures Lists(es[..|es| - 1], m - {es[|es| - 1].0})
  {
    var es', m' := es[..|es| - 1], m - {es[|es| - 1].0};
    ListsInitValues(es, m, es', m');
    ListsInitCovers(es, m, es', m');
  }

  /** The pairs before the last one carry the keys and values of the rest of the dictionary. */
  lemma ListsInitValues<V>(es: seq<(string, V)>, m: map<string, V>, es': seq<(string, V)>, m': map<string, V>)
    requires Lists(es, m) && es != []
    requires es' == es[..|es| - 1] && m' == m - {es[|es| - 1].0}
    ensures |es'| == |m'|
    ensures forall i :: 0 <= i < |es'| ==> es'[i].0 in m' && es'[i].1 == m'[es'[i].0]
  {
    var n := |es| - 1;
    var k := es[n].0;
    assert |m'| == |m| - 1 by {
      assert m'.Keys == m.Keys - {k};
    }
    forall i | 0 <= i < |es'|
      ensures es'[i].0 in m' && es'[i].1 == m'[es'[i].0]
    {
      assert es'[i] == es[i] && es[i].0 != es[n].0;
    }
  }

  /** Every key but the last listed one is listed before it. */
  lemma ListsInitCovers<V>(es: seq<(string, V)>, m: map<string, V>, es': seq<(string, V)>, m': map<string, V>)
    requires Lists(es, m) && es != []
    requires es' == es[..|es| - 1] && m' == m - {es[|es| - 1].0}
    ensures forall k :: k in m' ==> exists i :: 0 <= i < |es'| && es'[i].0 == k
  {
    forall k | k in m'
      ensures exists i :: 0 <= i < |es'| && es'[i].0 == k
    {
      var i :| 0 <= i < |es| && es[i].0 == k;
      assert i < |es'| && es'[i] == es[i];
    }
  }

  /** Summing a listing gives the sum over the dictionary. */
  lemma {:induction false} ListsTotal<V>(es: seq<(string, V)>, m: map<string, V>, f: V -> int)
    requires Lists(es, m)
    ensures SumValues(es, f) == TotalBy(m, f)
    decreases |es|
  {
    if es == [] {
      assert m.Keys == {} by {
        assert |m.Keys| == |m| == 0;
      }
      assert m == map[];
    } else {
      var k := es[|es| - 1].0;
      ListsInit(es, m);
      ListsTotal(es[..|es| - 1], m - {k}, f);
      TotalByRemove(m, k, f);
    }
  }

  // ---------------------------------------------------------------------
  // Distinct elements
  // ---------------------------------------------------------------------

  ghost predicate Distinct<T>(s: seq<T>)
  {
    forall i, j :: 0 <= i < j < |s| ==> s[i] != s[j]
  }

  lemma {:induction false} DistinctMultiplicity<T>(s: seq<T>)
    requires Distinct(s)
    ensures forall x :: multiset(s)[x] <= 1
    decreases |s|
  {
    if s != [] {
      var s' := s[..|s| - 1];
      assert s == s' + [s[|s| - 1]];
      DistinctMultiplicity(s');
      assert s[|s| - 1] !in s';
    }
  }

  lemma MultiplicityDistinct<T>(s: seq<T>)
    requires forall x :: multiset(s)[x] <= 1
    ensures Distinct(s)
  {
    forall i, j | 0 <= i < j < |s|
      ensures s[i] != s[j]
    {
      assert s == s[..j] + s[j..];
      assert s[i] in multiset(s[..j]);
      assert s[j] in multiset(s[j..]);
      assert multiset(s)[s[j]] == multiset(s[..j])[s[j]] + multiset(s[j..])[s[j]];
    }
  }

  /** Reordering keeps elements distinct. */
  lemma DistinctPermutation<T>(a: seq<T>, b: seq<T>)
    requires Distinct(a) && multiset(a) == multiset(b)
    ensures Distinct(b)
  {
    DistinctMultiplicity(a);
    MultiplicityDistinct(b);
  }

  /** No two elements of `s` share a key. */
  ghost predicate DistinctKeys<T, K>(s: seq<T>, key: T -> K)
  {
    forall i, j :: 0 <= i < j < |s| ==> key(s[i]) != key(s[j])
  }

  /** Reordering keeps keys distinct. */
  lemma DistinctKeysPermutation<T, K>(a: seq<T>, b: seq<T>, key: T -> K)
    requires DistinctKeys(a, key) && multiset(a) == multiset(b)
    ensures DistinctKeys(b, key)
  {
    assert Distinct(a);
    DistinctPermutation(a, b);
    forall i, j | 0 <= i < j < |b|
      ensures key(b[i]) != key(b[j])
    {
      assert b[i] in multiset(a) && b[j] in multiset(a);
      var p :| 0 <= p < |a| && a[p] == b[i];
      var q :| 0 <= q < |a| && a[q] == b[j];
      assert p != q;
    }
  }

  // ---------------------------------------------------------------------
  // Sorting (Array.prototype.sort with a comparator)
  // ---------------------------------------------------------------------

  /** `le(x, y)`: the comparator puts `x` no later than `y`. */
  ghost predicate TotalPreorder<T(!new)>(le: (T, T) -> bool)
  {
    && (forall x, y :: le(x, y) || le(y, x))
    && (forall x, y, z :: le(x, y) && le(y, z) ==> le(x, z))
  }

  ghost predicate SortedBy<T>(s: seq<T>, le: (T, T) -> bool)
  {
    forall i, j :: 0 <= i < j < |s| ==> le(s[i], s[j])
  }

  /** All of `s[..i+1]` is in order, except possibly around position `j`. */
  ghost predicate SortedExcept<T>(s: seq<T>, i: nat, j: nat, le: (T, T) -> bool)
    requires i < |s|
  {
    forall p, q :: 0 <= p < q <= i && p != j && q != j ==> le(s[p], s[q])
  }

  /** The element at `j` belongs before everything in `s[j+1..i+1]`. */
  ghost predicate BeforeRest<T>(s: seq<T>, i: nat, j: nat, le: (T, T) -> bool)
    requires j <= i < |s|
  {
    forall q :: j < q <= i ==> le(s[j], s[q])
  }

  /** Swapping an out-of-order pair moves the inserted element one place left. */
  lemma InsertStep<T(!new)>(s: seq<T>, t: seq<T>, i: nat, j: nat, le: (T, T) -> bool)
    requires TotalPreorder(le)
    requires 0 < j <= i < |s| == |t|
    requires SortedExcept(s, i, j, le) && BeforeRest(s, i, j, le)
    requires !le(s[j - 1], s[j])
    requires t == s[j - 1 := s[j]][j := s[j - 1]]
    ensures SortedExcept(t, i, j - 1, le) && BeforeRest(t, i, j - 1, le)
  {
    forall q | j - 1 < q <= i
      ensures le(t[j - 1], t[q])
    {
      if q > j {
        assert le(s[j], s[q]);
      }
    }
    forall p, q | 0 <= p < q <= i && p != j - 1 && q != j - 1
      ensures le(t[p], t[q])
    {
      if q == j {
        assert le(s[p], s[j - 1]);
      } else if p == j {
        assert le(s[j - 1], s[q]);
      } else {
        assert le(s[p], s[q]);
      }
    }
  }

  /** A sorted prefix is in order around the next position to insert. */
  lemma SortedPrefixExcept<T>(s: seq<T>, i: nat, le: (T, T) -> bool)
    requires i < |s|
    requires SortedBy(s[..i], le)
    ensures SortedExcept(s, i, i, le) && BeforeRest(s, i, i, le)
  {
    forall p, q | 0 <= p < q <= i && p != i && q != i
      ensures le(s[p], s[q])
    {
      assert s[..i][p] == s[p] && s[..i][q] == s[q];
    }
  }

  /** Once the inserted element stops moving, `s[..i+1]` is in order. */
  lemma InsertDone<T(!new)>(s: seq<T>, i: nat, j: nat, le: (T, T) -> bool)
    requires TotalPreorder(le)
    requires j <= i < |s|
    requires SortedExcept(s, i, j, le) && BeforeRest(s, i, j, le)
    requires j == 0 || le(s[j - 1], s[j])
    ensures SortedBy(s[..i + 1], le)
  {
    assert forall k :: 0 <= k <= i ==> s[..i + 1][k] == s[k];
    forall p, q | 0 <= p < q <= i
      ensures le(s[p], s[q])
    {
      if p == j {
        assert le(s[j], s[q]);
      } else if q == j {
        if p < j - 1 {
          assert le(s[p], s[j - 1]);
        }
      } else {
        assert le(s[p], s[q]);
      }
    }
  }

  /** Exchanges two neighbouring elements of `a`. */
  method SwapDown<T>(a: array<T>, j: nat)
    requires 0 < j < a.Length
    modifies a
    ensures a[..] == old(a[..])[j - 1 := old(a[j])][j := old(a[j - 1])]
    ensures multiset(a[..]) == multiset(old(a[..]))
  {
    a[j - 1], a[j] := a[j], a[j - 1];
  }

  /** Sorts `a` in place by `le` (insertion sort). */
  method SortBy<T(!new)>(a: array<T>, le: (T, T) -> bool)
    requires TotalPreorder(le)
    modifies a
    ensures SortedBy(a[..], le)
    ensures multiset(a[..]) == multiset(old(a[..]))
  {
    var i := 0;
    while i < a.Length
      invariant 0 <= i <= a.Length
      invariant SortedBy(a[..i], le)
      invariant multiset(a[..]) == multiset(old(a[..]))
    {
      var j := i;
      SortedPrefixExcept(a[..], i, le);
      while 0 < j && !le(a[j - 1], a[j])
        invariant 0 <= j <= i < a.Length
        invariant multiset(a[..]) == multiset(old(a[..]))
        invariant SortedExcept(a[..], i, j, le) && BeforeRest(a[..], i, j, le)
      {
        ghost var s := a[..];
        SwapDown(a, j);
        InsertStep(s, a[..], i, j, le);
        j := j - 1;
      }
      InsertDone(a[..], i, j, le);
      i := i + 1;
    }
    assert a[..] == a[..a.Length];
  }

  /** A sorted copy of `s`. */
  method Sorted<T(!new)>(s: seq<T>, le: (T, T) -> bool) returns (r: seq<T>)
    requires TotalPreorder(le)
    ensures SortedBy(r, le)
    ensures multiset(r) == multiset(s)
  {
    var a := new T[|s|](i requires 0 <= i < |s| => s[i]);
    assert a[..] == s;
    SortBy(a, le);
    r := a[..];
  }
}
