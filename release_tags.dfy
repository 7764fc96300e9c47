/**
 * The two small classifiers of the dashboard: the kind of version a release
 * tag names (`getReleaseType`) and the working-hour bucket of an hour of
 * the day (`getWorkHour`).
 */
module ReleaseTags {
  import opened Text

  // ---------------------------------------------------------------------
  // Release kinds
  // ---------------------------------------------------------------------

  /** The four labels `getReleaseType` can return. */
  datatype ReleaseKind = Unknown | Major | Minor | Patch
  {
    /** The label the dashboard shows and counts under. */
    function Label(): string
    {
      match this
      case Unknown => "알 수 없음"
      case Major => "주요 버전"
      case Minor => "부 버전"
      case Patch => "패치 버전"
    }
  }

  /** Different kinds are counted under different labels. */
  lemma LabelsDistinct(a: ReleaseKind, b: ReleaseKind)
    ensures a.Label() == b.Label() <==> a == b
  {
  }

  /**
   * `Number(piece)` is a number rather than NaN, for a piece of a version
   * split at '.'. The empty piece counts as a number: `Number('')` is 0.
   */
  predicate IsNumeric(piece: string)
  {
    AllDigits(piece)
  }

  /** The number of leading pieces that are numeric. */
  function NumericPrefix(parts: seq<string>): (n: nat)
    ensures n <= |parts|
    ensures forall i :: 0 <= i < n ==> IsNumeric(parts[i])
    ensures n < |parts| ==> !IsNumeric(parts[n])
  {
    if parts == [] || !IsNumeric(parts[0]) then 0
    else
      var n' := NumericPrefix(parts[1..]);
      assert forall i :: 1 <= i < 1 + n' ==> parts[i] == parts[1..][i - 1];
      1 + n'
  }

  /** The kind a number of leading numeric components stands for. */
  function KindOfDepth(n: nat): ReleaseKind
  {
    if n == 0 then Unknown else if n == 1 then Major else if n == 2 then Minor else Patch
  }

  /**
   * `const [major, minor, patch] = version.split('.').map(Number)` followed
   * by the NaN tests in that order; a missing component is `undefined`,
   * which `Number` turns into NaN.
   */
  function ClassifyVersion(version: string): ReleaseKind
  {
    var parts := Split(version, '.');
    if !IsNumeric(parts[0]) then Unknown
    else if |parts| < 2 || !IsNumeric(parts[1]) then Major
    else if |parts| < 3 || !IsNumeric(parts[2]) then Minor
    else Patch
  }

  /** `version.replace(/^v/, '')`. */
  function StripV(tag: string): (v: string)
    ensures tag != [] && tag[0] == 'v' ==> tag == ['v'] + v
    ensures (tag == [] || tag[0] != 'v') ==> v == tag
  {
    if tag != [] && tag[0] == 'v' then tag[1..] else tag
  }

  /** `tagName.split('@').pop()`: the text after the last '@', or all of a tag without one. */
  function LastSegment(tag: string): (v: string)
    ensures FollowsLastSeparator(tag, '@', v)
    ensures '@' !in tag ==> v == tag
  {
    var parts := Split(tag, '@');
    SplitLast(tag, '@');
    parts[|parts| - 1]
  }

  /**
   * `getReleaseType`: an empty tag is unknown; a tag holding '@' is
   * classified by its last '@'-segment (unknown when that is empty); any
   * other tag is classified after dropping one leading 'v'.
   */
  function ReleaseType(tag: string): ReleaseKind
  {
    if tag == [] then Unknown
    else if '@' in tag then
      var version := LastSegment(tag);
      if version == [] then Unknown else ClassifyVersion(version)
    else ClassifyVersion(StripV(tag))
  }

  /** The classification is the number of leading numeric components, capped at three. */
  lemma ClassifyByDepth(version: string)
    ensures ClassifyVersion(version) == KindOfDepth(NumericPrefix(Split(version, '.')))
  {
    var parts := Split(version, '.');
    var n := NumericPrefix(parts);
    if n >= 3 {
      assert IsNumeric(parts[0]) && IsNumeric(parts[1]) && IsNumeric(parts[2]);
    }
  }

  /** Only the first three components count: appending more changes nothing. */
  lemma ExtraComponentsIgnored(version: string, rest: string)
    requires |Split(version, '.')| >= 3
    ensures ClassifyVersion(version + "." + rest) == ClassifyVersion(version)
  {
    SplitAround(version, rest, '.');
    var p := Split(version, '.');
    var q := Split(version + "." + rest, '.');
    assert q[0] == p[0] && q[1] == p[1] && q[2] == p[2];
  }

  /** A tag of the form `scope@version` is classified by `version` alone. */
  lemma ScopedTag(scope: string, version: string)
    requires '@' !in version
    ensures ReleaseType(scope + "@" + version) == if version == [] then Unknown else ClassifyVersion(version)
  {
    var tag := scope + "@" + version;
    assert tag[|scope|] == '@';
    SplitAround(scope, version, '@');
    SplitWithoutSeparator(version, '@');
    assert LastSegment(tag) == version;
  }

  /**
   * A tag without '@' is classified as the version left after removing one
   * leading 'v' (only one: a second 'v' stays part of the version); a
   * non-empty tag that does not start with 'v' is classified as it is.
   */
  lemma PlainTag(t: string)
    requires '@' !in t
    ensures t != [] && t[0] != 'v' ==> ReleaseType(t) == ClassifyVersion(t)
    ensures ReleaseType("v" + t) == ClassifyVersion(t)
  {
    var vt := "v" + t;
    assert vt[0] == 'v' && vt[1..] == t;
    assert '@' !in vt;
  }

  /** Only one leading 'v' is removed: "v1" is a major version, "vv1" is unknown. */
  lemma OneLeadingV()
    ensures ReleaseType("v1") == Major
    ensures ReleaseType("vv1") == Unknown
  {
    assert IsDigit('1');
    SplitWithoutSeparator("1", '.');
    PlainTag("1");
    assert "v1"[0] == 'v' && !IsDigit('v');
    SplitWithoutSeparator("v1", '.');
    PlainTag("v1");
  }

  /** A string of digits holds neither '.' nor '@'. */
  lemma NoSeparatorInDigits(s: string)
    requires AllDigits(s)
    ensures '.' !in s && '@' !in s
  {
    forall i | 0 <= i < |s|
      ensures s[i] != '.' && s[i] != '@'
    {
      assert IsDigit(s[i]);
    }
  }

  /** Versions written as one, two or three digit strings joined by '.'. */
  lemma DottedDigits(a: string, b: string, c: string)
    requires AllDigits(a) && AllDigits(b) && AllDigits(c)
    ensures ClassifyVersion(a) == Major
    ensures ClassifyVersion(a + "." + b) == Minor
    ensures ClassifyVersion(a + "." + b + "." + c) == Patch
    ensures '@' !in a + "." + b && '@' !in a + "." + b + "." + c
  {
    NoSeparatorInDigits(a);
    NoSeparatorInDigits(b);
    NoSeparatorInDigits(c);
    SplitWithoutSeparator(a, '.');
    SplitWithoutSeparator(b, '.');
    SplitWithoutSeparator(c, '.');
    SplitAround(a, b, '.');
    SplitAround(a + "." + b, c, '.');
    assert Split(a + "." + b + "." + c, '.') == [a, b, c];
  }

  /**
   * Semantic-version tags, with or without a leading 'v', are classified by
   * how many of major, minor and patch they give.
   */
  lemma VersionTags(major: string, minor: string, patch: string)
    requires AllDigits(major) && AllDigits(minor) && AllDigits(patch) && major != []
    ensures var v3 := major + "." + minor + "." + patch;
            ReleaseType(v3) == Patch && ReleaseType("v" + v3) == Patch
    ensures ReleaseType("v" + (major + "." + minor)) == Minor
    ensures ReleaseType("v" + major) == Major
  {
    DottedDigits(major, minor, patch);
    NoSeparatorInDigits(major);
    var v3, v2 := major + "." + minor + "." + patch, major + "." + minor;
    assert IsDigit(major[0]);
    assert v3[0] == major[0] && v2[0] == major[0];
    PlainTag(v3);
    PlainTag(v2);
    PlainTag(major);
  }

  /** A scoped tag `scope@major.minor.patch` is a patch version whatever the scope. */
  lemma ScopedVersionTag(scope: string, major: string, minor: string, patch: string)
    requires AllDigits(major) && AllDigits(minor) && AllDigits(patch)
    ensures ReleaseType(scope + "@" + major + "." + minor + "." + patch) == Patch
  {
    DottedDigits(major, minor, patch);
    var v3 := major + "." + minor + "." + patch;
    ScopedTag(scope, v3);
    assert scope + "@" + major + "." + minor + "." + patch == scope + "@" + v3;
  }

  /** The empty tag, an empty scoped version, and a bare "v". */
  lemma ReleaseTypeEdges(scope: string)
    ensures ReleaseType("") == Unknown
    ensures ReleaseType(scope + "@") == Unknown
    ensures ReleaseType("v") == Major
  {
    ScopedTag(scope, "");
    assert scope + "@" + "" == scope + "@";
    assert Split("", '.') == [""];
    assert ClassifyVersion("") == Major;
    assert StripV("v") == "";
  }

  /** Three pieces without '.' joined by '.' split back into those pieces. */
  lemma SplitThree(a: string, b: string, c: string)
    requires '.' !in a && '.' !in b && '.' !in c
    ensures Split(a + "." + b + "." + c, '.') == [a, b, c]
  {
    SplitWithoutSeparator(a, '.');
    SplitWithoutSeparator(b, '.');
    SplitWithoutSeparator(c, '.');
    SplitAround(a, b, '.');
    SplitAround(a + "." + b, c, '.');
  }

  /** `major.minor.patch-suffix` has a patch component that is not a number. */
  lemma PreReleaseVersion(major: string, minor: string, patch: string, suffix: string)
    requires AllDigits(major) && AllDigits(minor) && AllDigits(patch) && major != []
    requires '.' !in suffix && '@' !in suffix
    ensures var v := major + "." + minor + "." + (patch + "-" + suffix);
            ClassifyVersion(v) == Minor && '@' !in v && v[0] != 'v'
  {
    var pre := patch + "-" + suffix;
    NoSeparatorInDigits(major);
    NoSeparatorInDigits(minor);
    NoSeparatorInDigits(patch);
    assert '.' !in pre;
    assert !IsNumeric(pre) by {
      assert pre[|patch|] == '-';
    }
    SplitThree(major, minor, pre);
    assert IsDigit(major[0]);
  }

  /** A pre-release suffix on the patch number makes the tag a minor version. */
  lemma PreReleaseSuffix(major: string, minor: string, patch: string, suffix: string)
    requires AllDigits(major) && AllDigits(minor) && AllDigits(patch) && major != []
    requires '.' !in suffix && '@' !in suffix
    ensures ReleaseType("v" + (major + "." + minor + "." + (patch + "-" + suffix))) == Minor
  {
    var v := major + "." + minor + "." + (patch + "-" + suffix);
    PreReleaseVersion(major, minor, patch, suffix);
    PlainTag(v);
  }

  // ---------------------------------------------------------------------
  // Working-hour buckets
  // ---------------------------------------------------------------------

  /** The one-hour buckets of the working day. */
  const WORK_HOURS: seq<string> :=
    ["09-10", "10-11", "11-12", "12-13", "13-14", "14-15", "15-16", "16-17", "17-18"]
  const BEFORE_WORK: string := "09시 이전"
  const AFTER_WORK: string := "18시 이후"

  /** Every bucket `getWorkHour` can return. */
  const HOUR_BUCKETS: seq<string> := WORK_HOURS + [BEFORE_WORK, AFTER_WORK]

  /** `getWorkHour`. */
  function WorkHour(hour: int): (bucket: string)
    ensures bucket in HOUR_BUCKETS
  {
    if hour < 9 then BEFORE_WORK
    else if hour >= 18 then AFTER_WORK
    else WORK_HOURS[hour - 9]
  }

  /** The eleven buckets are different strings. */
  lemma HourBucketsDistinct()
    ensures |HOUR_BUCKETS| == 11
    ensures forall i, j :: 0 <= i < j < |HOUR_BUCKETS| ==> HOUR_BUCKETS[i] != HOUR_BUCKETS[j]
  {
  }

  /**
   * A working hour `h` lands in the bucket written "hh-kk" whose two
   * numbers are `h` and `h + 1`; earlier and later hours land in the two
   * open-ended buckets.
   */
  lemma WorkHourBucket(h: int)
    ensures h < 9 <==> WorkHour(h) == BEFORE_WORK
    ensures h >= 18 <==> WorkHour(h) == AFTER_WORK
    ensures 9 <= h < 18 ==>
              var b := WorkHour(h);
              |b| == 5 && b[2] == '-' &&
              AllDigits(b[..2]) && Value(b[..2]) == h &&
              AllDigits(b[3..]) && Value(b[3..]) == h + 1
  {
    HourBucketsDistinct();
    if 9 <= h < 18 {
      var b := WorkHour(h);
      assert b == WORK_HOURS[h - 9];
      WorkHourSpelled(h);
      assert b[..2] == [b[0], b[1]] && b[3..] == [b[3], b[4]];
      TwoDigitValue(b[..2]);
      TwoDigitValue(b[3..]);
    }
  }

  /** The bucket of a working hour spelled out digit by digit. */
  lemma WorkHourSpelled(h: int)
    requires 9 <= h < 18
    ensures WORK_HOURS[h - 9] ==
              [DigitChar(h / 10), DigitChar(h % 10), '-', DigitChar((h + 1) / 10), DigitChar((h + 1) % 10)]
  {
    if h == 9 {} else if h == 10 {} else if h == 11 {} else if h == 12 {}
    else if h == 13 {} else if h == 14 {} else if h == 15 {} else if h == 16 {}
    else {}
  }

  lemma TwoDigitValue(s: string)
    requires |s| == 2 && AllDigits(s)
    ensures Value(s) == 10 * DigitValue(s[0]) + DigitValue(s[1])
  {
    var t := s[1..];
    assert t[0] == s[1] && t[1..] == [];
    assert Value(t) == DigitValue(s[1]);
    assert Value(s) == DigitValue(s[0]) * Pow10(1) + Value(t);
  }
}
