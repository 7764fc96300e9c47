/**
 * String helpers the core relies on: decimal formatting and `padStart`
 * (the period keys "YYYY", "MM", "HH", week numbers), `split` (version
 * tags), and the ordering `localeCompare` gives to the period keys.
 */
module Text {

  // ---------------------------------------------------------------------
  // Decimal digits
  // ---------------------------------------------------------------------

  predicate IsDigit(c: char)
  {
    '0' <= c <= '9'
  }

  predicate AllDigits(s: string)
  {
    forall i :: 0 <= i < |s| ==> IsDigit(s[i])
  }

  function DigitChar(d: nat): (c: char)
    requires d < 10
    ensures IsDigit(c)
  {
    (48 + d) as char
  }

  function DigitValue(c: char): nat
    requires IsDigit(c)
  {
    (c as int) - 48
  }

  function Pow10(k: nat): (p: nat)
    ensures p >= 1
  {
    if k == 0 then 1 else 10 * Pow10(k - 1)
  }

  /** Decimal notation of a non-negative integer, as `toString()` writes it. */
  function Digits(n: nat): (s: string)
    ensures 1 <= |s| && AllDigits(s)
  {
    if n < 10 then [DigitChar(n)] else Digits(n / 10) + [DigitChar(n % 10)]
  }

  /** The number a string of decimal digits denotes. */
  function Value(s: string): nat
    requires AllDigits(s)
  {
    if s == [] then 0 else DigitValue(s[0]) * Pow10(|s| - 1) + Value(s[1..])
  }

  function Repeat(c: char, k: nat): (r: string)
    ensures |r| == k
    ensures forall i :: 0 <= i < k ==> r[i] == c
  {
    if k == 0 then [] else [c] + Repeat(c, k - 1)
  }

  /** `s.padStart(width, fill)` for a one-character `fill`. */
  function PadStart(s: string, width: nat, fill: char): (r: string)
    ensures |r| == if |s| < width then width else |s|
    ensures r[|r| - |s|..] == s
    ensures forall i :: 0 <= i < |r| - |s| ==> r[i] == fill
  {
    if |s| < width then Repeat(fill, width - |s|) + s else s
  }

  /** `n.toString().padStart(width, '0')`. */
  function Padded(n: nat, width: nat): string
  {
    PadStart(Digits(n), width, '0')
  }

  lemma {:induction false} ValueBound(s: string)
    requires AllDigits(s)
    ensures Value(s) < Pow10(|s|)
    decreases |s|
  {
    if s != [] {
      ValueBound(s[1..]);
      LeadingDigitDecides(DigitValue(s[0]), 10, Pow10(|s| - 1), Value(s[1..]), 0);
    }
  }

  lemma {:induction false} ValueSnoc(s: string, c: char)
    requires AllDigits(s) && IsDigit(c)
    ensures AllDigits(s + [c])
    ensures Value(s + [c]) == 10 * Value(s) + DigitValue(c)
    decreases |s|
  {
    if s == [] {
      assert [] + [c] == [c];
    } else {
      assert (s + [c])[1..] == s[1..] + [c];
      ValueSnoc(s[1..], c);
      ShiftDigit(DigitValue(s[0]), Pow10(|s| - 1));
    }
  }

  /** Reading back a printed number gives the number. */
  lemma {:induction false} ValueOfDigits(n: nat)
    ensures Value(Digits(n)) == n
  {
    if n >= 10 {
      ValueOfDigits(n / 10);
      ValueSnoc(Digits(n / 10), DigitChar(n % 10));
    }
  }

  /** A number below `10^width` needs at most `width` digits. */
  lemma {:induction false} DigitsLength(n: nat, width: nat)
    requires 1 <= width && n < Pow10(width)
    ensures |Digits(n)| <= width
  {
    if n >= 10 {
      DigitsLength(n / 10, width - 1);
    }
  }

  /** Leading zeros do not change the value. */
  lemma {:induction false} ValueLeadingZeros(k: nat, s: string)
    requires AllDigits(s)
    ensures AllDigits(Repeat('0', k) + s)
    ensures Value(Repeat('0', k) + s) == Value(s)
  {
    var t := Repeat('0', k) + s;
    if k > 0 {
      ValueLeadingZeros(k - 1, s);
      assert t[1..] == Repeat('0', k - 1) + s;
      assert t[0] == '0' && DigitValue(t[0]) == 0;
      assert DigitValue(t[0]) * Pow10(|t| - 1) == 0;
    } else {
      assert t == s;
    }
  }

  /**
   * A number below `10^width` padded with zeros to `width` is exactly
   * `width` digits long, and reading it back gives the number.
   */
  lemma PaddedValue(n: nat, width: nat)
    requires 1 <= width && n < Pow10(width)
    ensures |Padded(n, width)| == width
    ensures AllDigits(Padded(n, width))
    ensures Value(Padded(n, width)) == n
  {
    DigitsLength(n, width);
    ValueOfDigits(n);
    var d := Digits(n);
    if |d| < width {
      assert Padded(n, width) == Repeat('0', width - |d|) + d;
      ValueLeadingZeros(width - |d|, d);
    } else {
      assert Padded(n, width) == d;
    }
  }

  // ---------------------------------------------------------------------
  // Ordering of strings (localeCompare on the period keys)
  // ---------------------------------------------------------------------

  /**
   * `a` sorts no later than `b`: code-unit lexicographic order, the order
   * `localeCompare(a, b) <= 0` gives to strings of digits, '-' and 'W'.
   */
  predicate LexLe(a: string, b: string)
  {
    a == [] || (b != [] && (a[0] < b[0] || (a[0] == b[0] && LexLe(a[1..], b[1..]))))
  }

  lemma {:induction false} LexLeTotal(a: string, b: string)
    ensures LexLe(a, b) || LexLe(b, a)
  {
    if a != [] && b != [] && a[0] == b[0] {
      LexLeTotal(a[1..], b[1..]);
    }
  }

  lemma {:induction false} LexLeTransitive(a: string, b: string, c: string)
    requires LexLe(a, b) && LexLe(b, c)
    ensures LexLe(a, c)
  {
    if a != [] && a[0] == b[0] && b[0] == c[0] {
      LexLeTransitive(a[1..], b[1..], c[1..]);
    }
  }

  lemma {:induction false} LexLeAntisymmetric(a: string, b: string)
    requires LexLe(a, b) && LexLe(b, a)
    ensures a == b
  {
    if a != [] {
      LexLeAntisymmetric(a[1..], b[1..]);
      assert a == [a[0]] + a[1..] && b == [b[0]] + b[1..];
    }
  }

  /** Comparing two strings that start with equally long parts. */
  lemma {:induction false} LexLeConcat(a1: string, r1: string, a2: string, r2: string)
    requires |a1| == |a2|
    ensures LexLe(a1 + r1, a2 + r2) == if a1 == a2 then LexLe(r1, r2) else LexLe(a1, a2)
  {
    if a1 != [] {
      assert (a1 + r1)[1..] == a1[1..] + r1;
      assert (a2 + r2)[1..] == a2[1..] + r2;
      LexLeConcat(a1[1..], r1, a2[1..], r2);
      if a1[0] == a2[0] && a1[1..] == a2[1..] {
        assert a1 == [a1[0]] + a1[1..] && a2 == [a2[0]] + a2[1..];
      }
    } else {
      assert a1 + r1 == r1 && a2 + r2 == r2;
    }
  }

  /** For digit strings of one length, the string order is the numeric order. */
  lemma {:induction false} LexLeDigits(x: string, y: string)
    requires AllDigits(x) && AllDigits(y) && |x| == |y|
    ensures LexLe(x, y) <==> Value(x) <= Value(y)
  {
    if x != [] {
      var p := Pow10(|x| - 1);
      var dx, dy := DigitValue(x[0]), DigitValue(y[0]);
      var vx, vy := Value(x[1..]), Value(y[1..]);
      assert Value(x) == dx * p + vx;
      assert Value(y) == dy * p + vy;
      ValueBound(x[1..]);
      ValueBound(y[1..]);
      if dx == dy {
        LexLeDigits(x[1..], y[1..]);
      } else if dx < dy {
        LeadingDigitDecides(dx, dy, p, vx, vy);
      } else {
        LeadingDigitDecides(dy, dx, p, vy, vx);
      }
    }
  }

  lemma ShiftDigit(d: nat, p: nat)
    ensures d * (10 * p) == 10 * (d * p)
  {
  }

  lemma LeadingDigitDecides(d1: nat, d2: nat, p: nat, v1: nat, v2: nat)
    requires d1 < d2 && v1 < p
    ensures d1 * p + v1 < d2 * p + v2
  {
    assert d1 * p + p == (d1 + 1) * p;
    assert (d1 + 1) * p <= d2 * p;
  }

  /** Zero-padded numbers of one width sort in numeric order. */
  lemma PaddedOrder(a: nat, b: nat, width: nat)
    requires 1 <= width && a < Pow10(width) && b < Pow10(width)
    ensures LexLe(Padded(a, width), Padded(b, width)) <==> a <= b
    ensures Padded(a, width) == Padded(b, width) <==> a == b
  {
    PaddedValue(a, width);
    PaddedValue(b, width);
    LexLeDigits(Padded(a, width), Padded(b, width));
  }

  // ---------------------------------------------------------------------
  // split and join
  // ---------------------------------------------------------------------

  /** `s.split(sep)` for a one-character separator. */
  function Split(s: string, sep: char): (parts: seq<string>)
    ensures 1 <= |parts|
    decreases |s|
  {
    if s == [] then [[]]
    else
      var rest := Split(s[1..], sep);
      if s[0] == sep then [[]] + rest else [[s[0]] + rest[0]] + rest[1..]
  }

  /** `parts.join(sep)`. */
  function Join(parts: seq<string>, sep: char): string
    requires 1 <= |parts|
  {
    if |parts| == 1 then parts[0] else parts[0] + [sep] + Join(parts[1..], sep)
  }

  /** A leading empty piece joins to a leading separator. */
  lemma JoinEmptyHead(rest: seq<string>, sep: char)
    requires 1 <= |rest|
    ensures Join([[]] + rest, sep) == [sep] + Join(rest, sep)
  {
    assert ([[]] + rest)[1..] == rest;
  }

  /** A character put in front of the first piece comes first in the joined string. */
  lemma JoinPrepend(c: char, rest: seq<string>, sep: char)
    requires 1 <= |rest|
    ensures Join([[c] + rest[0]] + rest[1..], sep) == [c] + Join(rest, sep)
  {
    var parts := [[c] + rest[0]] + rest[1..];
    assert parts[1..] == rest[1..];
    if |rest| > 1 {
      assert Join(parts, sep) == ([c] + rest[0]) + [sep] + Join(rest[1..], sep);
    }
  }

  /** Joining the pieces restores the string. */
  lemma {:induction false} SplitJoin(s: string, sep: char)
    ensures Join(Split(s, sep), sep) == s
    decreases |s|
  {
    if s != [] {
      SplitJoin(s[1..], sep);
      if s[0] == sep {
        JoinEmptyHead(Split(s[1..], sep), sep);
      } else {
        JoinPrepend(s[0], Split(s[1..], sep), sep);
      }
      assert s == [s[0]] + s[1..];
    }
  }

  /** No piece holds the separator. */
  lemma {:induction false} SplitPieces(s: string, sep: char)
    ensures forall p :: p in Split(s, sep) ==> sep !in p
    decreases |s|
  {
    if s != [] {
      SplitPieces(s[1..], sep);
      var rest := Split(s[1..], sep);
      if s[0] != sep {
        assert rest[0] in rest;
        assert forall p :: p in rest[1..] ==> p in rest;
      }
    }
  }

  /**
   * `last` is what follows the last separator of `s`: a suffix of `s`
   * without the separator, preceded by one unless it is all of `s`.
   */
  predicate FollowsLastSeparator(s: string, sep: char, last: string)
  {
    && sep !in last && |last| <= |s| && s[|s| - |last|..] == last
    && (|last| < |s| ==> s[|s| - |last| - 1] == sep)
  }

  /** The last piece of splitting `s` is what follows its last separator, and a single piece is `s`. */
  predicate LastPieceFollows(s: string, sep: char)
  {
    var parts := Split(s, sep);
    FollowsLastSeparator(s, sep, parts[|parts| - 1]) && (|parts| == 1 ==> parts[0] == s)
  }

  /** The last piece of a split is what follows the last separator. */
  lemma {:induction false} SplitLast(s: string, sep: char)
    ensures LastPieceFollows(s, sep)
    decreases |s|
  {
    if s != [] {
      var c, t := s[0], s[1..];
      assert s == [c] + t;
      SplitLast(t, sep);
      if c == sep || |Split(t, sep)| > 1 {
        SplitLastShared(c, t, sep);
      } else {
        SplitLastWhole(c, t, sep);
      }
    }
  }

  /** The step of `SplitLast` when the last piece of `t` stays the last piece. */
  lemma SplitLastShared(c: char, t: string, sep: char)
    requires LastPieceFollows(t, sep)
    requires c == sep || |Split(t, sep)| > 1
    ensures LastPieceFollows([c] + t, sep)
  {
    assert ([c] + t)[1..] == t;
    var rest := Split(t, sep);
    var last := rest[|rest| - 1];
    var parts := Split([c] + t, sep);
    assert |parts| > 1 && parts[|parts| - 1] == last;
    if |rest| > 1 && |last| == |t| {
      SplitWithoutSeparator(t, sep);
    }
    LastAfterLonger(c, t, sep, last);
  }

  /** The step of `SplitLast` when `t` has no separator and `c` is not one. */
  lemma SplitLastWhole(c: char, t: string, sep: char)
    requires LastPieceFollows(t, sep)
    requires c != sep && |Split(t, sep)| == 1
    ensures LastPieceFollows([c] + t, sep)
  {
    assert ([c] + t)[1..] == t;
    LastWhole(c, t, sep);
  }

  /** Putting a character in front keeps what follows the last separator, when one is left. */
  lemma LastAfterLonger(c: char, t: string, sep: char, last: string)
    requires FollowsLastSeparator(t, sep, last)
    requires c == sep || |last| < |t|
    ensures FollowsLastSeparator([c] + t, sep, last)
  {
    var s := [c] + t;
    assert s[|s| - |last|..] == t[|t| - |last|..];
    if |last| == |t| {
      assert s[|s| - |last| - 1] == c;
    } else {
      assert s[|s| - |last| - 1] == t[|t| - |last| - 1];
    }
  }

  /** A string without the separator is all that follows the last one. */
  lemma LastWhole(c: char, t: string, sep: char)
    requires c != sep && FollowsLastSeparator(t, sep, t)
    ensures FollowsLastSeparator([c] + t, sep, [c] + t)
  {
    assert ([c] + t)[0] == c;
  }

  /** A string without the separator is one piece. */
  lemma {:induction false} SplitWithoutSeparator(s: string, sep: char)
    requires sep !in s
    ensures Split(s, sep) == [s]
    decreases |s|
  {
    if s != [] {
      assert sep !in s[1..];
      SplitWithoutSeparator(s[1..], sep);
      assert s == [s[0]] + s[1..];
    }
  }

  /** Splitting at a separator splits the two sides independently. */
  lemma {:induction false} SplitAround(a: string, b: string, sep: char)
    ensures Split(a + [sep] + b, sep) == Split(a, sep) + Split(b, sep)
    decreases |a|
  {
    if a == [] {
      assert a + [sep] + b == [sep] + b;
      assert ([sep] + b)[1..] == b;
    } else {
      var c, rest := a[0], a[1..];
      assert a == [c] + rest;
      assert a + [sep] + b == [c] + (rest + [sep] + b);
      SplitAround(rest, b, sep);
      if c == sep {
        SplitAroundSep(rest, b, sep);
      } else {
        SplitAroundChar(c, rest, b, sep);
      }
    }
  }

  /** The step of `SplitAround` when the left side starts with the separator. */
  lemma SplitAroundSep(rest: string, b: string, sep: char)
    requires Split(rest + [sep] + b, sep) == Split(rest, sep) + Split(b, sep)
    ensures Split([sep] + (rest + [sep] + b), sep) == Split([sep] + rest, sep) + Split(b, sep)
  {
    assert ([sep] + (rest + [sep] + b))[1..] == rest + [sep] + b;
    assert ([sep] + rest)[1..] == rest;
  }

  /** The step of `SplitAround` when the left side starts with another character. */
  lemma SplitAroundChar(c: char, rest: string, b: string, sep: char)
    requires c != sep
    requires Split(rest + [sep] + b, sep) == Split(rest, sep) + Split(b, sep)
    ensures Split([c] + (rest + [sep] + b), sep) == Split([c] + rest, sep) + Split(b, sep)
  {
    assert ([c] + (rest + [sep] + b))[1..] == rest + [sep] + b;
    assert ([c] + rest)[1..] == rest;
    var p, q := Split(rest, sep), Split(b, sep);
    assert (p + q)[0] == p[0] && (p + q)[1..] == p[1..] + q;
  }
}
