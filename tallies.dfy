/**
 * Counter dictionaries: the `{ [key: string]: number }` objects the core
 * fills with `m[k] = (m[k] || 0) + 1`.
 */
module Tallies {
  import opened Collections

  type Tally = map<string, nat>

  function CountValue(n: nat): int
  {
    n
  }

  /** The sum of all counters. */
  ghost function Total(m: Tally): int
  {
    TotalBy(m, CountValue)
  }

  /** `m[k] = (m[k] || 0) + 1`. */
  function Bump(m: Tally, k: string): Tally
  {
    m[k := (if k in m then m[k] else 0) + 1]
  }

  /** Starting from `m`, bumps the counter of `key(x)` for each `x` of `xs` in turn. */
  function TallyBy<T>(m: Tally, xs: seq<T>, key: T -> string): Tally
  {
    if xs == [] then m else Bump(TallyBy(m, xs[..|xs| - 1], key), key(xs[|xs| - 1]))
  }

  /** How many elements of `xs` have key `k`. */
  function CountWhere<T>(xs: seq<T>, key: T -> string, k: string): nat
  {
    if xs == [] then 0
    else CountWhere(xs[..|xs| - 1], key, k) + (if key(xs[|xs| - 1]) == k then 1 else 0)
  }

  /** The keys that occur in `xs`. */
  function KeySet<T>(xs: seq<T>, key: T -> string): set<string>
  {
    set i | 0 <= i < |xs| :: key(xs[i])
  }

  lemma TallyBySnoc<T>(m: Tally, xs: seq<T>, x: T, key: T -> string)
    ensures TallyBy(m, xs + [x], key) == Bump(TallyBy(m, xs, key), key(x))
  {
    assert (xs + [x])[..|xs|] == xs;
  }

  lemma CountWhereSnoc<T>(xs: seq<T>, x: T, key: T -> string)
    ensures CountWhere(xs + [x], key, key(x)) == CountWhere(xs, key, key(x)) + 1
    ensures forall k :: k != key(x) ==> CountWhere(xs + [x], key, k) == CountWhere(xs, key, k)
  {
    assert (xs + [x])[..|xs|] == xs;
  }

  /** `TallyBy` over one more element of a prefix of `xs`. */
  lemma TallyByPrefix<T>(m: Tally, xs: seq<T>, i: nat, key: T -> string)
    requires i < |xs|
    ensures TallyBy(m, xs[..i + 1], key) == Bump(TallyBy(m, xs[..i], key), key(xs[i]))
  {
    assert xs[..i + 1][..i] == xs[..i];
  }

  /** `CountWhere` over one more element of a prefix of `xs`. */
  lemma CountWherePrefix<T>(xs: seq<T>, i: nat, key: T -> string, k: string)
    requires i < |xs|
    ensures CountWhere(xs[..i + 1], key, k) == CountWhere(xs[..i], key, k) + (if key(xs[i]) == k then 1 else 0)
  {
    assert xs[..i + 1][..i] == xs[..i];
  }

  /** Each bump adds one to the sum. */
  lemma BumpTotal(m: Tally, k: string)
    ensures Total(Bump(m, k)) == Total(m) + 1
  {
    TotalByUpdate(m, k, (if k in m then m[k] else 0) + 1, CountValue);
    if k !in m {
      assert m - {k} == m;
    }
  }

  /** The counters grow by exactly the number of elements counted. */
  lemma {:induction false} TallyByTotal<T>(m: Tally, xs: seq<T>, key: T -> string)
    ensures Total(TallyBy(m, xs, key)) == Total(m) + |xs|
    decreases |xs|
  {
    if xs != [] {
      TallyByTotal(m, xs[..|xs| - 1], key);
      BumpTotal(TallyBy(m, xs[..|xs| - 1], key), key(xs[|xs| - 1]));
    }
  }

  lemma KeySetSnoc<T>(xs: seq<T>, x: T, key: T -> string)
    ensures KeySet(xs + [x], key) == KeySet(xs, key) + {key(x)}
  {
    var ys := xs + [x];
    forall k | k in KeySet(ys, key) ensures k in KeySet(xs, key) + {key(x)} {
      var i :| 0 <= i < |ys| && key(ys[i]) == k;
      if i < |xs| {
        assert xs[i] == ys[i];
      }
    }
    forall k | k in KeySet(xs, key) ensures k in KeySet(ys, key) {
      var i :| 0 <= i < |xs| && key(xs[i]) == k;
      assert ys[i] == xs[i];
    }
    assert ys[|xs|] == x;
  }

  /**
   * `m` holds the counters of `init` and the keys of `xs`, and each counter
   * is its initial value plus the number of elements of `xs` with that key.
   */
  ghost predicate Counts<T>(m: Tally, init: Tally, xs: seq<T>, key: T -> string)
  {
    && m.Keys == init.Keys + KeySet(xs, key)
    && forall k :: k in m ==> m[k] == (if k in init then init[k] else 0) + CountWhere(xs, key, k)
  }

  /** Bumping counters one element at a time counts the elements by key. */
  lemma {:induction false} TallyByCounts<T>(m: Tally, xs: seq<T>, key: T -> string)
    ensures Counts(TallyBy(m, xs, key), m, xs, key)
    decreases |xs|
  {
    if xs != [] {
      var xs', x := xs[..|xs| - 1], xs[|xs| - 1];
      assert xs == xs' + [x];
      TallyByCounts(m, xs', key);
      TallyBySnoc(m, xs', x, key);
      CountWhereSnoc(xs', x, key);
      CountWhereOccurs(xs', key);
      KeySetSnoc(xs', x, key);
    }
  }

  /** A dictionary of zero counters sums to zero. */
  lemma {:induction false} ZeroTotal(m: Tally)
    requires forall k :: k in m ==> m[k] == 0
    ensures Total(m) == 0
    decreases |m|
  {
    if m != map[] {
      var k := Pick(m.Keys);
      TotalByRemove(m, k, CountValue);
      assert |(m - {k}).Keys| == |m.Keys| - 1;
      ZeroTotal(m - {k});
    } else {
      assert Total(m) == 0;
    }
  }

  /** Counting from an empty dictionary, every counter is at least one. */
  lemma {:induction false} TallyByPositive<T>(xs: seq<T>, key: T -> string)
    ensures forall k :: k in TallyBy(map[], xs, key) ==> TallyBy(map[], xs, key)[k] >= 1
    decreases |xs|
  {
    if xs != [] {
      TallyByPositive(xs[..|xs| - 1], key);
    }
  }

  /** A key is counted exactly when it occurs. */
  lemma {:induction false} CountWhereOccurs<T>(xs: seq<T>, key: T -> string)
    ensures forall k :: CountWhere(xs, key, k) > 0 <==> k in KeySet(xs, key)
    decreases |xs|
  {
    if xs != [] {
      var xs', x := xs[..|xs| - 1], xs[|xs| - 1];
      CountWhereOccurs(xs', key);
      forall k
        ensures CountWhere(xs, key, k) > 0 <==> k in KeySet(xs, key)
      {
        if k in KeySet(xs', key) {
          var i :| 0 <= i < |xs'| && key(xs'[i]) == k;
          assert xs[i] == xs'[i];
        }
        if k in KeySet(xs, key) && k != key(x) {
          var i :| 0 <= i < |xs| && key(xs[i]) == k;
          assert i < |xs'| && xs'[i] == xs[i];
        }
      }
    }
  }

  lemma {:induction false} CountWhereBound<T>(xs: seq<T>, key: T -> string, k: string)
    ensures CountWhere(xs, key, k) <= |xs|
    decreases |xs|
  {
    if xs != [] {
      CountWhereBound(xs[..|xs| - 1], key, k);
    }
  }

  /** `xs.forEach(x => { m[key(x)] = (m[key(x)] || 0) + 1; })` on an empty `m`. */
  method CountAll<T>(xs: seq<T>, key: T -> string) returns (m: Tally)
    ensures Counts(m, map[], xs, key)
    ensures Total(m) == |xs|
    ensures forall k :: k in m ==> m[k] >= 1
  {
    m := map[];
    for i := 0 to |xs|
      invariant m == TallyBy(map[], xs[..i], key)
    {
      assert xs[..i + 1] == xs[..i] + [xs[i]];
      TallyBySnoc(map[], xs[..i], xs[i], key);
      m := Bump(m, key(xs[i]));
    }
    assert xs[..|xs|] == xs;
    TallyByCounts(map[], xs, key);
    TallyByTotal(map[], xs, key);
    TallyByPositive(xs, key);
    ZeroTotal(map[]);
  }
}
