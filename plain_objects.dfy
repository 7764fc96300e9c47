/**
 * The author dictionaries of the dashboard as the code builds them: plain
 * object literals indexed by login. Reading a key an object literal does not
 * own yields `undefined`, except for the names of the methods it inherits
 * from `Object.prototype`, which yield a function. Seven of those names are
 * valid GitHub logins (letters, digits and '-'). A release by such an author
 * makes `calculateStats` store a string where a count belongs, and makes
 * `getTopAuthors` throw. The members below model that code as written;
 * `ReleaseStats.CalculateStats` and `ReleaseStats.GatherAuthors` model the
 * evident intent, counting such a login like any other.
 */
module PlainObjects {
  import opened Collections
  import opened Tallies
  import opened ReleaseStats

  /** The inherited methods of `{}` whose names a GitHub login can spell. */
  const INHERITED: set<string> := {
    "constructor", "hasOwnProperty", "isPrototypeOf", "propertyIsEnumerable",
    "toLocaleString", "toString", "valueOf"
  }

  /** The text `+` turns the inherited function named `k` into. */
  function NativeSource(k: string): (src: string)
    ensures src != []
  {
    var name := if k == "constructor" then "Object" else k;
    "function " + name + "() { [native code] }"
  }

  /** `n` copies of the character '1'. */
  function Ones(n: nat): (s: string)
    ensures |s| == n && forall i :: 0 <= i < n ==> s[i] == '1'
  {
    seq(n, _ => '1')
  }

  // ---------------------------------------------------------------------
  // calculateStats: `releasesByAuthor[login] = (releasesByAuthor[login] || 0) + 1`
  // ---------------------------------------------------------------------

  /** A value stored in `releasesByAuthor`: a number, or the string `+` made. */
  datatype JsValue = Num(n: nat) | Str(s: string)

  /** The counters of a tally, as the numbers the object would hold. */
  function AsNumbers(m: Tally): (o: map<string, JsValue>)
    ensures o.Keys == m.Keys && forall k :: k in m ==> o[k] == Num(m[k])
  {
    map k | k in m :: Num(m[k])
  }

  /** `(o[k] || 0) + 1` stored back at `k`, on an object literal `o`. */
  function BumpAsWritten(o: map<string, JsValue>, k: string): (o': map<string, JsValue>)
    ensures o'.Keys == o.Keys + {k}
    ensures forall j :: j in o && j != k ==> o'[j] == o[j]
  {
    var next :=
      if k in o then
        match o[k]
        case Num(n) => Num(n + 1)
        case Str(s) => if s == [] then Num(1) else Str(s + "1")
      else if k in INHERITED then Str(NativeSource(k) + "1")
      else Num(1);
    o[k := next]
  }

  /** The `forEach` of `calculateStats` over `xs`, as written, for one counter object. */
  function TallyAsWritten<T>(xs: seq<T>, key: T -> string): (o: map<string, JsValue>)
    ensures forall k :: k in o <==> CountWhere(xs, key, k) > 0
  {
    if xs == [] then map[]
    else BumpAsWritten(TallyAsWritten(xs[..|xs| - 1], key), key(xs[|xs| - 1]))
  }

  /** On a key that names no inherited method the written step is the counter bump. */
  lemma BumpAgrees(m: Tally, k: string)
    requires k !in INHERITED
    ensures BumpAsWritten(AsNumbers(m), k) == AsNumbers(Bump(m, k))
  {
  }

  /** When no key names an inherited method, the code as written counts exactly like `TallyBy`. */
  lemma {:induction false} OrdinaryKeysCount<T>(xs: seq<T>, key: T -> string)
    requires forall i :: 0 <= i < |xs| ==> key(xs[i]) !in INHERITED
    ensures TallyAsWritten(xs, key) == AsNumbers(TallyBy(map[], xs, key))
  {
    if xs != [] {
      var prefix := xs[..|xs| - 1];
      assert forall i :: 0 <= i < |prefix| ==> prefix[i] == xs[i];
      OrdinaryKeysCount(prefix, key);
      BumpAgrees(TallyBy(map[], prefix, key), key(xs[|xs| - 1]));
    }
  }

  /**
   * A key that names an inherited method and occurs `c > 0` times ends with
   * the source text of that method followed by `c` '1' characters.
   */
  lemma {:induction false} InheritedKeyCounter<T>(xs: seq<T>, key: T -> string, k: string)
    requires k in INHERITED && CountWhere(xs, key, k) > 0
    ensures k in TallyAsWritten(xs, key)
    ensures TallyAsWritten(xs, key)[k] == Str(NativeSource(k) + Ones(CountWhere(xs, key, k)))
  {
    var prefix := xs[..|xs| - 1];
    var c := CountWhere(xs, key, k);
    if key(xs[|xs| - 1]) == k {
      if CountWhere(prefix, key, k) > 0 {
        InheritedKeyCounter(prefix, key, k);
        assert Ones(c - 1) + "1" == Ones(c);
        assert NativeSource(k) + Ones(c - 1) + "1" == NativeSource(k) + Ones(c);
      } else {
        assert Ones(1) == "1";
      }
    } else {
      InheritedKeyCounter(prefix, key, k);
    }
  }

  // ---------------------------------------------------------------------
  // getTopAuthors: `if (!authorStats[login]) ...; .count++; .dates.push(...)`
  // ---------------------------------------------------------------------

  /** What `authorStats[login]` yields on the object literal of `getTopAuthors`. */
  datatype Slot = Own(acc: AuthorAcc) | InheritedMethod | Missing

  function Lookup(authorStats: map<string, AuthorAcc>, k: string): (s: Slot)
    ensures s.Own? <==> k in authorStats
    ensures s.Missing? <==> k !in authorStats && k !in INHERITED
  {
    if k in authorStats then Own(authorStats[k])
    else if k in INHERITED then InheritedMethod
    else Missing
  }

  /**
   * One turn of the gathering loop as written; `None` when it throws. An
   * inherited method is truthy, so no entry is created for it; `count++`
   * then writes NaN onto the function, whose `dates` is undefined, and
   * `push` throws a TypeError.
   */
  function GatherStepAsWritten(authorStats: map<string, AuthorAcc>, r: Release): Option<map<string, AuthorAcc>>
  {
    var k := r.authorLogin;
    var m := if Lookup(authorStats, k).Missing? then authorStats[k := AuthorAcc(0, [])] else authorStats;
    match Lookup(m, k)
    case Own(acc) => Some(m[k := AuthorAcc(acc.count + 1, acc.dates + [r.publishedAtKST])])
    case _ => None
  }

  /** The gathering loop of `getTopAuthors` as written, over `xs` in order. */
  function GatherAsWritten(xs: seq<Release>): Option<map<string, AuthorAcc>>
  {
    if xs == [] then Some(map[])
    else
      match GatherAsWritten(xs[..|xs| - 1])
      case None => None
      case Some(m) => GatherStepAsWritten(m, xs[|xs| - 1])
  }

  /** Some login in `xs` names an inherited method. */
  predicate HasInheritedLogin(xs: seq<Release>)
  {
    exists i :: 0 <= i < |xs| && xs[i].authorLogin in INHERITED
  }

  /**
   * The gathering loop as written throws exactly when some login names an
   * inherited method; otherwise it gathers what `GatherAuthors` gathers.
   */
  lemma {:induction false} GatherAsWrittenThrows(xs: seq<Release>)
    ensures GatherAsWritten(xs).None? <==> HasInheritedLogin(xs)
    ensures GatherAsWritten(xs).Some? ==> Gathered(xs, GatherAsWritten(xs).value)
  {
    if xs != [] {
      var prefix, r := xs[..|xs| - 1], xs[|xs| - 1];
      assert xs == prefix + [r];
      assert forall i :: 0 <= i < |prefix| ==> prefix[i] == xs[i];
      GatherAsWrittenThrows(prefix);
      if GatherAsWritten(prefix).Some? {
        GatherStepKnown(prefix, GatherAsWritten(prefix).value, r);
      }
    }
  }

  /** One step of `GatherAsWrittenThrows`, after a prefix that did not throw. */
  lemma GatherStepKnown(prefix: seq<Release>, m: map<string, AuthorAcc>, r: Release)
    requires Gathered(prefix, m) && !HasInheritedLogin(prefix)
    ensures GatherStepAsWritten(m, r).None? <==> r.authorLogin in INHERITED
    ensures GatherStepAsWritten(m, r).Some? ==> Gathered(prefix + [r], GatherStepAsWritten(m, r).value)
  {
    var k := r.authorLogin;
    if k !in INHERITED {
      GatheredSnoc(prefix, r, m);
    }
  }

  /**
   * The smallest input that shows the first: one release by the login
   * "constructor". As written, its counter is a string; the model counts it
   * once.
   */
  lemma ConstructorLogin(r: Release)
    requires r.authorLogin == "constructor"
    ensures TallyAsWritten([r], AuthorKey)["constructor"] == Str("function Object() { [native code] }1")
    ensures TallyBy(map[], [r], AuthorKey)["constructor"] == 1
  {
    var k := "constructor";
    assert k in INHERITED;
    assert [r][..0] == [];
    assert NativeSource(k) + "1" == "function Object() { [native code] }1";
    assert TallyAsWritten([r], AuthorKey) == BumpAsWritten(map[], k);
  }

  /** The same input shows the second: the top-authors loop as written throws on it. */
  lemma ConstructorLoginThrows(r: Release)
    requires r.authorLogin == "constructor"
    ensures GatherAsWritten([r]) == None
  {
    assert "constructor" in INHERITED;
    assert [r][..0] == [];
    assert GatherAsWritten([r]) == GatherStepAsWritten(map[], r);
  }
}
