/**
 * The dashboard's statistics over release rows: the summary counters
 * (`calculateStats`), the most active authors (`getTopAuthors`), the
 * monthly and cumulative trend (`getReleaseTrend`) and the gaps between
 * consecutive releases by kind (`getVersionUpgradePattern`). All four
 * look only at releases published on a weekday.
 */
module ReleaseStats {
  import opened Collections
  import opened Text
  import opened Tallies
  import opened Calendar
  import opened ReleaseTags

  /** The fields of a release row that the statistics read. */
  datatype Release = Release(
    repository: string,
    tagName: string,
    publishedAtKST: Moment,
    isPreRelease: string,
    isDraft: string,
    authorLogin: string)

  // ---------------------------------------------------------------------
  // Weekday and weekend releases
  // ---------------------------------------------------------------------

  /** `data.filter(r => isWeekend(r.PublishedAtKST) === weekend)`, order kept. */
  function OnWeekend(data: seq<Release>, weekend: bool): (r: seq<Release>)
    ensures |r| <= |data|
    ensures forall x :: x in r <==> x in data && IsWeekend(x.publishedAtKST) == weekend
  {
    if data == [] then []
    else
      var x := data[|data| - 1];
      var rest := OnWeekend(data[..|data| - 1], weekend);
      assert data == data[..|data| - 1] + [x];
      if IsWeekend(x.publishedAtKST) == weekend then rest + [x] else rest
  }

  /** The releases every statistic of the dashboard is computed from. */
  function WeekdayReleases(data: seq<Release>): seq<Release>
  {
    OnWeekend(data, false)
  }

  /** Every release is a weekday or a weekend release, never both. */
  lemma {:induction false} WeekdayWeekendPartition(data: seq<Release>)
    ensures |WeekdayReleases(data)| + |OnWeekend(data, true)| == |data|
    decreases |data|
  {
    if data != [] {
      WeekdayWeekendPartition(data[..|data| - 1]);
    }
  }

  // ---------------------------------------------------------------------
  // What each counter is keyed by
  // ---------------------------------------------------------------------

  /** The weekday names the weekday counters are created with. */
  const WEEKDAYS: seq<string> := ["월요일", "화요일", "수요일", "목요일", "금요일"]

  /** `weekdayMap[name] || name`. */
  function KoreanDayName(name: string): string
  {
    var names := map[
      "Monday" := "월요일",
      "Tuesday" := "화요일",
      "Wednesday" := "수요일",
      "Thursday" := "목요일",
      "Friday" := "금요일"];
    if name in names then names[name] else name
  }

  function TypeKey(r: Release): string
  {
    ReleaseType(r.tagName).Label()
  }

  function WeekdayKey(r: Release): string
  {
    KoreanDayName(DayName(r.publishedAtKST))
  }

  function HourBucketKey(r: Release): string
  {
    WorkHour(r.publishedAtKST.hour)
  }

  function MonthOf(r: Release): string
  {
    MonthKey(r.publishedAtKST)
  }

  function AuthorKey(r: Release): string
  {
    r.authorLogin
  }

  function PreReleaseFlag(r: Release): string
  {
    r.isPreRelease
  }

  function DraftFlag(r: Release): string
  {
    r.isDraft
  }

  /** A weekday release is counted under the Korean name of its day, Monday first. */
  lemma WeekdayKeyKorean(r: Release)
    requires !IsWeekend(r.publishedAtKST)
    ensures WeekdayKey(r) == WEEKDAYS[r.publishedAtKST.weekday - 1]
  {
  }

  /** Counters for `keys`, all zero. */
  function Zeros(keys: seq<string>): (m: Tally)
    ensures m.Keys == set k | k in keys
    ensures forall k :: k in m ==> m[k] == 0
  {
    map k | k in keys :: 0
  }

  // ---------------------------------------------------------------------
  // calculateStats
  // ---------------------------------------------------------------------

  /** The summary counters of the dashboard. */
  datatype Stats = Stats(
    totalReleases: nat,
    releasesByType: Tally,
    releasesByWeekday: Tally,
    releasesByHour: Tally,
    releasesByMonth: Tally,
    releasesByAuthor: Tally,
    preReleaseCount: nat,
    draftCount: nat,
    weekendReleaseCount: nat)

  /**
   * `calculateStats`: the weekday releases counted by kind, weekday, hour
   * bucket, month and author, with the pre-release and draft flags; the
   * weekend releases are only counted.
   */
  method CalculateStats(data: seq<Release>) returns (stats: Stats)
    ensures stats.totalReleases == |WeekdayReleases(data)|
    ensures stats.weekendReleaseCount == |OnWeekend(data, true)|
    ensures stats.totalReleases + stats.weekendReleaseCount == |data|
    ensures Counts(stats.releasesByType, map[], WeekdayReleases(data), TypeKey)
    ensures Counts(stats.releasesByWeekday, Zeros(WEEKDAYS), WeekdayReleases(data), WeekdayKey)
    ensures Counts(stats.releasesByHour, Zeros(HOUR_BUCKETS), WeekdayReleases(data), HourBucketKey)
    ensures Counts(stats.releasesByMonth, map[], WeekdayReleases(data), MonthOf)
    ensures Counts(stats.releasesByAuthor, map[], WeekdayReleases(data), AuthorKey)
    ensures stats.releasesByWeekday.Keys == set d | d in WEEKDAYS
    ensures stats.releasesByHour.Keys == set b | b in HOUR_BUCKETS
    ensures Total(stats.releasesByType) == Total(stats.releasesByWeekday) == Total(stats.releasesByHour)
         == Total(stats.releasesByMonth) == Total(stats.releasesByAuthor) == stats.totalReleases
    ensures stats.preReleaseCount == CountWhere(WeekdayReleases(data), PreReleaseFlag, "TRUE")
    ensures stats.draftCount == CountWhere(WeekdayReleases(data), DraftFlag, "TRUE")
    ensures stats.preReleaseCount <= stats.totalReleases && stats.draftCount <= stats.totalReleases
  {
    var weekday := WeekdayReleases(data);
    var byType: Tally, byWeekday, byHour, byMonth: Tally, byAuthor: Tally :=
      map[], Zeros(WEEKDAYS), Zeros(HOUR_BUCKETS), map[], map[];
    var preReleases, drafts := 0, 0;
    for i := 0 to |weekday|
      invariant Tallied(weekday[..i], byType, byWeekday, byHour, byMonth, byAuthor, preReleases, drafts)
    {
      var r := weekday[i];
      TalliedStep(weekday, i, byType, byWeekday, byHour, byMonth, byAuthor, preReleases, drafts);
      byType := Bump(byType, TypeKey(r));
      byWeekday := Bump(byWeekday, WeekdayKey(r));
      byHour := Bump(byHour, HourBucketKey(r));
      byMonth := Bump(byMonth, MonthOf(r));
      byAuthor := Bump(byAuthor, AuthorKey(r));
      if r.isPreRelease == "TRUE" {
        preReleases := preReleases + 1;
      }
      if r.isDraft == "TRUE" {
        drafts := drafts + 1;
      }
    }
    assert weekday[..|weekday|] == weekday;
    WeekdayWeekendPartition(data);
    CountWhereBound(weekday, PreReleaseFlag, "TRUE");
    CountWhereBound(weekday, DraftFlag, "TRUE");
    TalliedCounts(weekday, byType, byWeekday, byHour, byMonth, byAuthor, preReleases, drafts);
    TalliedTotals(weekday, byType, byWeekday, byHour, byMonth, byAuthor, preReleases, drafts);
    stats := Stats(|weekday|, byType, byWeekday, byHour, byMonth, byAuthor,
                   preReleases, drafts, |OnWeekend(data, true)|);
  }

  /** The counters of `CalculateStats` after counting the releases `xs`. */
  ghost predicate Tallied(xs: seq<Release>, byType: Tally, byWeekday: Tally, byHour: Tally,
                          byMonth: Tally, byAuthor: Tally, preReleases: nat, drafts: nat)
  {
    && byType == TallyBy(map[], xs, TypeKey)
    && byWeekday == TallyBy(Zeros(WEEKDAYS), xs, WeekdayKey)
    && byHour == TallyBy(Zeros(HOUR_BUCKETS), xs, HourBucketKey)
    && byMonth == TallyBy(map[], xs, MonthOf)
    && byAuthor == TallyBy(map[], xs, AuthorKey)
    && preReleases == CountWhere(xs, PreReleaseFlag, "TRUE")
    && drafts == CountWhere(xs, DraftFlag, "TRUE")
  }

  /** One turn of the loop of `CalculateStats` counts one more release. */
  lemma TalliedStep(xs: seq<Release>, i: nat, byType: Tally, byWeekday: Tally, byHour: Tally,
                    byMonth: Tally, byAuthor: Tally, preReleases: nat, drafts: nat)
    requires i < |xs|
    requires Tallied(xs[..i], byType, byWeekday, byHour, byMonth, byAuthor, preReleases, drafts)
    ensures Tallied(xs[..i + 1], Bump(byType, TypeKey(xs[i])), Bump(byWeekday, WeekdayKey(xs[i])),
                    Bump(byHour, HourBucketKey(xs[i])), Bump(byMonth, MonthOf(xs[i])),
                    Bump(byAuthor, AuthorKey(xs[i])),
                    preReleases + (if xs[i].isPreRelease == "TRUE" then 1 else 0),
                    drafts + (if xs[i].isDraft == "TRUE" then 1 else 0))
  {
    TallyByPrefix(map[], xs, i, TypeKey);
    TallyByPrefix(Zeros(WEEKDAYS), xs, i, WeekdayKey);
    TallyByPrefix(Zeros(HOUR_BUCKETS), xs, i, HourBucketKey);
    TallyByPrefix(map[], xs, i, MonthOf);
    TallyByPrefix(map[], xs, i, AuthorKey);
    CountWherePrefix(xs, i, PreReleaseFlag, "TRUE");
    CountWherePrefix(xs, i, DraftFlag, "TRUE");
  }

  /** Once every weekday release is counted, each dictionary counts them by its key. */
  lemma TalliedCounts(weekday: seq<Release>, byType: Tally, byWeekday: Tally, byHour: Tally,
                      byMonth: Tally, byAuthor: Tally, preReleases: nat, drafts: nat)
    requires forall r :: r in weekday ==> !IsWeekend(r.publishedAtKST)
    requires Tallied(weekday, byType, byWeekday, byHour, byMonth, byAuthor, preReleases, drafts)
    ensures Counts(byType, map[], weekday, TypeKey)
    ensures Counts(byWeekday, Zeros(WEEKDAYS), weekday, WeekdayKey)
    ensures Counts(byHour, Zeros(HOUR_BUCKETS), weekday, HourBucketKey)
    ensures Counts(byMonth, map[], weekday, MonthOf)
    ensures Counts(byAuthor, map[], weekday, AuthorKey)
    ensures byWeekday.Keys == set d | d in WEEKDAYS
    ensures byHour.Keys == set b | b in HOUR_BUCKETS
  {
    TallyByCounts(map[], weekday, TypeKey);
    TallyByCounts(Zeros(WEEKDAYS), weekday, WeekdayKey);
    TallyByCounts(Zeros(HOUR_BUCKETS), weekday, HourBucketKey);
    TallyByCounts(map[], weekday, MonthOf);
    TallyByCounts(map[], weekday, AuthorKey);
    WeekdayKeysKnown(weekday);
    HourKeysKnown(weekday);
  }

  /** Once every weekday release is counted, each dictionary sums to their number. */
  lemma TalliedTotals(weekday: seq<Release>, byType: Tally, byWeekday: Tally, byHour: Tally,
                      byMonth: Tally, byAuthor: Tally, preReleases: nat, drafts: nat)
    requires Tallied(weekday, byType, byWeekday, byHour, byMonth, byAuthor, preReleases, drafts)
    ensures Total(byType) == Total(byWeekday) == Total(byHour) == Total(byMonth) == Total(byAuthor) == |weekday|
  {
    ZeroTotal(map[]);
    ZeroTotal(Zeros(WEEKDAYS));
    ZeroTotal(Zeros(HOUR_BUCKETS));
    TallyByTotal(map[], weekday, TypeKey);
    TallyByTotal(Zeros(WEEKDAYS), weekday, WeekdayKey);
    TallyByTotal(Zeros(HOUR_BUCKETS), weekday, HourBucketKey);
    TallyByTotal(map[], weekday, MonthOf);
    TallyByTotal(map[], weekday, AuthorKey);
  }

  /** Weekday releases are only ever counted under the five weekday names. */
  lemma WeekdayKeysKnown(weekday: seq<Release>)
    requires forall r :: r in weekday ==> !IsWeekend(r.publishedAtKST)
    ensures KeySet(weekday, WeekdayKey) <= set d | d in WEEKDAYS
  {
    forall k | k in KeySet(weekday, WeekdayKey)
      ensures k in WEEKDAYS
    {
      var i :| 0 <= i < |weekday| && WeekdayKey(weekday[i]) == k;
      WeekdayKeyKorean(weekday[i]);
    }
  }

  /** Every release is counted under one of the eleven hour buckets. */
  lemma HourKeysKnown(rs: seq<Release>)
    ensures KeySet(rs, HourBucketKey) <= set b | b in HOUR_BUCKETS
  {
    forall k | k in KeySet(rs, HourBucketKey)
      ensures k in HOUR_BUCKETS
    {
      var i :| 0 <= i < |rs| && HourBucketKey(rs[i]) == k;
    }
  }

  // ---------------------------------------------------------------------
  // Rounding and slicing
  // ---------------------------------------------------------------------

  /**
   * `Math.round(s / d)` for a positive `d`: the integer nearest to the
   * quotient, halves rounded up.
   */
  function RoundDiv(s: int, d: int): (r: int)
    requires d > 0
    ensures 2 * d * r - d <= 2 * s < 2 * d * r + d
  {
    (2 * s + d) / (2 * d)
  }

  /** The rounded mean of a sum that is not negative is not negative. */
  lemma RoundDivNonNegative(s: int, d: int)
    requires s >= 0 && d > 0
    ensures RoundDiv(s, d) >= 0
  {
    assert 2 * s + d >= 0 && 2 * d > 0;
  }

  /**
   * Where `slice(0, limit)` stops in a list of `n` elements: a non-negative
   * limit keeps the first `limit` elements, or all of them when there are
   * fewer; a negative one drops the last `-limit`, or everything when there
   * are fewer.
   */
  function SliceEnd(n: nat, limit: int): (e: nat)
    ensures e <= n
    ensures 0 <= limit ==> e <= limit && (e == limit || e == n)
    ensures limit < 0 ==> n - e <= -limit && (e == 0 || n - e == -limit)
  {
    if limit < 0 then (if n + limit < 0 then 0 else n + limit)
    else if limit < n then limit
    else n
  }

  // ---------------------------------------------------------------------
  // getTopAuthors
  // ---------------------------------------------------------------------

  /** What is gathered per author: the count and the publication times, in input order. */
  datatype AuthorAcc = AuthorAcc(count: nat, dates: seq<Moment>)

  /** One row of the top-authors table. */
  datatype AuthorRow = AuthorRow(author: string, count: nat, avgDays: int)

  /** The publication times of the releases of author `a`, in order. */
  function AuthorDates(xs: seq<Release>, a: string): (ds: seq<Moment>)
    ensures |ds| == CountWhere(xs, AuthorKey, a)
  {
    if xs == [] then []
    else
      var x := xs[|xs| - 1];
      AuthorDates(xs[..|xs| - 1], a) + (if x.authorLogin == a then [x.publishedAtKST] else [])
  }

  /** The whole days between consecutive times of `ds`, added up. */
  function GapSum(ds: seq<Moment>): int
  {
    if |ds| < 2 then 0 else GapSum(ds[..|ds| - 1]) + DayDiff(ds[|ds| - 1], ds[|ds| - 2])
  }

  /** The rounded mean gap in days, or 0 when there is no gap. */
  function AvgGap(ds: seq<Moment>): int
  {
    if |ds| > 1 then RoundDiv(GapSum(ds), |ds| - 1) else 0
  }

  /**
   * In chronological order the summed gaps are whole days that fit in the
   * span from the first time to the last, so the mean gap is not negative.
   */
  lemma {:induction false} GapSumSpan(ds: seq<Moment>)
    requires forall i, j :: 0 <= i < j < |ds| ==> ds[i].instant <= ds[j].instant
    ensures 0 <= GapSum(ds)
    ensures |ds| > 0 ==> GapSum(ds) * SECONDS_PER_DAY <= ds[|ds| - 1].instant - ds[0].instant
    ensures 0 <= AvgGap(ds)
    decreases |ds|
  {
    if |ds| >= 2 {
      var ds' := ds[..|ds| - 1];
      GapSumSpan(ds');
      var d := DayDiff(ds[|ds| - 1], ds[|ds| - 2]);
      assert d * SECONDS_PER_DAY <= ds[|ds| - 1].instant - ds[|ds| - 2].instant;
      assert GapSum(ds) * SECONDS_PER_DAY == GapSum(ds') * SECONDS_PER_DAY + d * SECONDS_PER_DAY;
      RoundDivNonNegative(GapSum(ds), |ds| - 1);
    }
  }

  /** The row `getTopAuthors` makes for author `a`. */
  function AuthorRowFor(xs: seq<Release>, a: string): AuthorRow
  {
    AuthorRow(a, CountWhere(xs, AuthorKey, a), AvgGap(AuthorDates(xs, a)))
  }

  function RowAuthor(r: AuthorRow): string
  {
    r.author
  }

  /** `(a, b) => b.count - a.count`: more releases first. */
  predicate MoreReleases(a: AuthorRow, b: AuthorRow)
  {
    a.count >= b.count
  }

  /** Author `a` has a row in `rows`. */
  ghost predicate Shown(rows: seq<AuthorRow>, a: string)
  {
    exists j :: 0 <= j < |rows| && rows[j].author == a
  }

  /**
   * What `getTopAuthors` returns for the weekday releases `weekday`: one
   * row per author of a weekday release, with the number of releases and
   * the rounded mean gap between them in the order given, most releases
   * first, cut to `limit` rows as `slice(0, limit)` cuts. No author left
   * out has more releases than an author shown.
   */
  ghost predicate TopAuthors(top: seq<AuthorRow>, weekday: seq<Release>, limit: int)
  {
    && |top| == SliceEnd(|KeySet(weekday, AuthorKey)|, limit)
    && (forall i :: 0 <= i < |top| ==>
          top[i].author in KeySet(weekday, AuthorKey) && top[i] == AuthorRowFor(weekday, top[i].author))
    && (forall i, j :: 0 <= i < j < |top| ==> top[i].count >= top[j].count)
    && (forall i, j :: 0 <= i < j < |top| ==> top[i].author != top[j].author)
    && (forall a, i :: a in KeySet(weekday, AuthorKey) && !Shown(top, a) && 0 <= i < |top| ==>
          CountWhere(weekday, AuthorKey, a) <= top[i].count)
  }

  /** `getTopAuthors`. */
  method GetTopAuthors(data: seq<Release>, limit: int := 5) returns (top: seq<AuthorRow>)
    ensures TopAuthors(top, WeekdayReleases(data), limit)
  {
    var weekday := WeekdayReleases(data);
    var authorStats := GatherAuthors(weekday);
    var rows := AuthorRows(weekday, authorStats);
    var sorted := Sorted(rows, MoreReleases);
    top := sorted[..SliceEnd(|sorted|, limit)];
    TopOfSorted(weekday, rows, sorted, limit);
  }

  /** Cutting the sorted author rows gives the top authors. */
  lemma TopOfSorted(weekday: seq<Release>, rows: seq<AuthorRow>, sorted: seq<AuthorRow>, limit: int)
    requires |rows| == |KeySet(weekday, AuthorKey)|
    requires DistinctKeys(rows, RowAuthor)
    requires forall i :: 0 <= i < |rows| ==>
               rows[i].author in KeySet(weekday, AuthorKey) && rows[i] == AuthorRowFor(weekday, rows[i].author)
    requires forall a :: a in KeySet(weekday, AuthorKey) ==> Shown(rows, a)
    requires SortedBy(sorted, MoreReleases) && multiset(sorted) == multiset(rows)
    ensures TopAuthors(sorted[..SliceEnd(|sorted|, limit)], weekday, limit)
  {
    DistinctKeysPermutation(rows, sorted, RowAuthor);
    PermutationRows(weekday, rows, sorted);
    var top := sorted[..SliceEnd(|sorted|, limit)];
    TopCut(weekday, sorted, top);
  }

  /** The `forEach` of `getTopAuthors`: count and times per author. */
  method GatherAuthors(weekday: seq<Release>) returns (authorStats: map<string, AuthorAcc>)
    ensures Gathered(weekday, authorStats)
  {
    authorStats := map[];
    for i := 0 to |weekday|
      invariant Gathered(weekday[..i], authorStats)
    {
      var r := weekday[i];
      GatheredStep(weekday, i, authorStats);
      if r.authorLogin !in authorStats {
        authorStats := authorStats[r.authorLogin := AuthorAcc(0, [])];
      }
      var acc := authorStats[r.authorLogin];
      authorStats := authorStats[r.authorLogin := AuthorAcc(acc.count + 1, acc.dates + [r.publishedAtKST])];
    }
    assert weekday[..|weekday|] == weekday;
  }

  /** The dictionary of `GetTopAuthors` after gathering the releases `xs`. */
  ghost predicate Gathered(xs: seq<Release>, authorStats: map<string, AuthorAcc>)
  {
    && authorStats.Keys == KeySet(xs, AuthorKey)
    && forall a :: a in authorStats ==>
         authorStats[a] == AuthorAcc(CountWhere(xs, AuthorKey, a), AuthorDates(xs, a))
  }

  /** Gathering one more release. */
  lemma GatheredSnoc(xs: seq<Release>, r: Release, authorStats: map<string, AuthorAcc>)
    requires Gathered(xs, authorStats)
    ensures var a := r.authorLogin;
            var m := if a in authorStats then authorStats else authorStats[a := AuthorAcc(0, [])];
            Gathered(xs + [r], m[a := AuthorAcc(m[a].count + 1, m[a].dates + [r.publishedAtKST])])
  {
    KeySetSnoc(xs, r, AuthorKey);
    CountWhereSnoc(xs, r, AuthorKey);
    CountWhereOccurs(xs, AuthorKey);
    assert (xs + [r])[..|xs|] == xs;
  }

  /** One turn of the gathering loop of `GetTopAuthors`. */
  lemma GatheredStep(xs: seq<Release>, i: nat, authorStats: map<string, AuthorAcc>)
    requires i < |xs| && Gathered(xs[..i], authorStats)
    ensures var a := xs[i].authorLogin;
            var m := if a in authorStats then authorStats else authorStats[a := AuthorAcc(0, [])];
            Gathered(xs[..i + 1], m[a := AuthorAcc(m[a].count + 1, m[a].dates + [xs[i].publishedAtKST])])
  {
    assert xs[..i + 1] == xs[..i] + [xs[i]];
    GatheredSnoc(xs[..i], xs[i], authorStats);
  }

  /** `Object.entries(authorStats).map(...)`: one row per author, each the author's row. */
  method AuthorRows(weekday: seq<Release>, authorStats: map<string, AuthorAcc>) returns (rows: seq<AuthorRow>)
    requires Gathered(weekday, authorStats)
    ensures |rows| == |KeySet(weekday, AuthorKey)|
    ensures DistinctKeys(rows, RowAuthor)
    ensures forall i :: 0 <= i < |rows| ==>
              rows[i].author in KeySet(weekday, AuthorKey) && rows[i] == AuthorRowFor(weekday, rows[i].author)
    ensures forall a :: a in KeySet(weekday, AuthorKey) ==> Shown(rows, a)
  {
    var entries := Entries(authorStats);
    rows := seq(|entries|, i requires 0 <= i < |entries| =>
      AuthorRow(entries[i].0, entries[i].1.count, AvgGap(entries[i].1.dates)));
    RowsOfEntries(weekday, authorStats, entries, rows);
  }

  /** One row per listed author carries what was gathered for that author. */
  lemma RowsOfEntries(weekday: seq<Release>, authorStats: map<string, AuthorAcc>,
                      entries: seq<(string, AuthorAcc)>, rows: seq<AuthorRow>)
    requires Gathered(weekday, authorStats) && Lists(entries, authorStats)
    requires |rows| == |entries|
    requires forall i :: 0 <= i < |rows| ==>
               rows[i] == AuthorRow(entries[i].0, entries[i].1.count, AvgGap(entries[i].1.dates))
    ensures |rows| == |KeySet(weekday, AuthorKey)|
    ensures DistinctKeys(rows, RowAuthor)
    ensures forall i :: 0 <= i < |rows| ==>
              rows[i].author in KeySet(weekday, AuthorKey) && rows[i] == AuthorRowFor(weekday, rows[i].author)
    ensures forall a :: a in KeySet(weekday, AuthorKey) ==> Shown(rows, a)
  {
    assert |authorStats| == |authorStats.Keys|;
    forall a | a in KeySet(weekday, AuthorKey)
      ensures Shown(rows, a)
    {
      var p :| 0 <= p < |entries| && entries[p].0 == a;
      assert rows[p].author == a;
    }
    assert DistinctKeys(rows, RowAuthor) by {
      forall i, j | 0 <= i < j < |rows| ensures RowAuthor(rows[i]) != RowAuthor(rows[j]) {
        assert rows[i].author == entries[i].0 && rows[j].author == entries[j].0;
      }
    }
  }

  /** Sorting the rows keeps what each row says and which authors have one. */
  lemma PermutationRows(weekday: seq<Release>, rows: seq<AuthorRow>, sorted: seq<AuthorRow>)
    requires multiset(sorted) == multiset(rows)
    requires forall i :: 0 <= i < |rows| ==>
               rows[i].author in KeySet(weekday, AuthorKey) && rows[i] == AuthorRowFor(weekday, rows[i].author)
    requires forall a :: a in KeySet(weekday, AuthorKey) ==> Shown(rows, a)
    ensures |sorted| == |rows|
    ensures forall i :: 0 <= i < |sorted| ==>
              sorted[i].author in KeySet(weekday, AuthorKey) && sorted[i] == AuthorRowFor(weekday, sorted[i].author)
    ensures forall a :: a in KeySet(weekday, AuthorKey) ==> Shown(sorted, a)
  {
    assert |sorted| == |multiset(sorted)| == |multiset(rows)| == |rows|;
    forall i | 0 <= i < |sorted|
      ensures sorted[i].author in KeySet(weekday, AuthorKey) && sorted[i] == AuthorRowFor(weekday, sorted[i].author)
    {
      assert sorted[i] in multiset(rows);
      var p :| 0 <= p < |rows| && rows[p] == sorted[i];
    }
    forall a | a in KeySet(weekday, AuthorKey)
      ensures Shown(sorted, a)
    {
      var p :| 0 <= p < |rows| && rows[p].author == a;
      assert rows[p] in multiset(sorted);
      var j :| 0 <= j < |sorted| && sorted[j] == rows[p];
    }
  }

  /** A prefix of the sorted rows holds the authors with the most releases. */
  lemma TopCut(weekday: seq<Release>, sorted: seq<AuthorRow>, top: seq<AuthorRow>)
    requires SortedBy(sorted, MoreReleases)
    requires top <= sorted
    requires forall i :: 0 <= i < |sorted| ==>
               sorted[i].author in KeySet(weekday, AuthorKey) && sorted[i] == AuthorRowFor(weekday, sorted[i].author)
    requires forall a :: a in KeySet(weekday, AuthorKey) ==> Shown(sorted, a)
    requires DistinctKeys(sorted, RowAuthor)
    ensures forall i, j :: 0 <= i < j < |top| ==> top[i].count >= top[j].count
    ensures forall i, j :: 0 <= i < j < |top| ==> top[i].author != top[j].author
    ensures forall a, i :: a in KeySet(weekday, AuthorKey) && !Shown(top, a) && 0 <= i < |top| ==>
              CountWhere(weekday, AuthorKey, a) <= top[i].count
  {
    forall a, i | a in KeySet(weekday, AuthorKey) && !Shown(top, a) && 0 <= i < |top|
      ensures CountWhere(weekday, AuthorKey, a) <= top[i].count
    {
      assert forall k :: 0 <= k < |top| ==> sorted[k].author != a;
      var j :| 0 <= j < |sorted| && sorted[j].author == a;
      assert MoreReleases(sorted[i], sorted[j]);
    }
    forall i, j | 0 <= i < j < |top| ensures top[i].author != top[j].author {
      assert RowAuthor(sorted[i]) != RowAuthor(sorted[j]);
    }
  }

  // ---------------------------------------------------------------------
  // getReleaseTrend
  // ---------------------------------------------------------------------

  /** A month and a count of releases. */
  datatype TrendPoint = TrendPoint(date: string, count: nat)

  function PointCount(p: TrendPoint): int
  {
    p.count
  }

  function PointDate(p: TrendPoint): string
  {
    p.date
  }

  /** Some point of `points` is for month `m`. */
  ghost predicate HasPoint(points: seq<TrendPoint>, m: string)
  {
    exists i :: 0 <= i < |points| && points[i].date == m
  }

  /** `(a, b) => a.date.localeCompare(b.date)`: earlier keys first. */
  predicate EarlierDate(a: TrendPoint, b: TrendPoint)
  {
    LexLe(a.date, b.date)
  }

  lemma EarlierDateOrders()
    ensures TotalPreorder(EarlierDate)
  {
    forall a: TrendPoint, b: TrendPoint
      ensures EarlierDate(a, b) || EarlierDate(b, a)
    {
      LexLeTotal(a.date, b.date);
    }
    forall a: TrendPoint, b: TrendPoint, c: TrendPoint | EarlierDate(a, b) && EarlierDate(b, c)
      ensures EarlierDate(a, c)
    {
      LexLeTransitive(a.date, b.date, c.date);
    }
  }

  /**
   * `getReleaseTrend`: the number of weekday releases per month, in
   * ascending key order (which is calendar order, see
   * `Calendar.MonthKeyOrder`), and the running total up to each month,
   * which ends at the number of weekday releases.
   */
  method GetReleaseTrend(data: seq<Release>) returns (monthly: seq<TrendPoint>, cumulative: seq<TrendPoint>)
    ensures forall i :: 0 <= i < |monthly| ==>
              monthly[i].date in KeySet(WeekdayReleases(data), MonthOf) &&
              monthly[i].count == CountWhere(WeekdayReleases(data), MonthOf, monthly[i].date)
    ensures forall m :: m in KeySet(WeekdayReleases(data), MonthOf) ==> HasPoint(monthly, m)
    ensures forall i, j :: 0 <= i < j < |monthly| ==>
              monthly[i].date != monthly[j].date && LexLe(monthly[i].date, monthly[j].date)
    ensures |cumulative| == |monthly|
    ensures RunningTotals(cumulative, monthly)
    ensures Increasing(cumulative)
    ensures |cumulative| > 0 ==> cumulative[|cumulative| - 1].count == |WeekdayReleases(data)|
  {
    monthly := MonthlyTrend(WeekdayReleases(data));
    cumulative := Cumulative(monthly);
    if |monthly| > 0 {
      assert monthly[..|monthly|] == monthly;
    }
  }

  /** The monthly half of `getReleaseTrend`, over the weekday releases. */
  method MonthlyTrend(weekday: seq<Release>) returns (monthly: seq<TrendPoint>)
    ensures forall i :: 0 <= i < |monthly| ==>
              monthly[i].date in KeySet(weekday, MonthOf) &&
              monthly[i].count == CountWhere(weekday, MonthOf, monthly[i].date)
    ensures forall m :: m in KeySet(weekday, MonthOf) ==> HasPoint(monthly, m)
    ensures forall i, j :: 0 <= i < j < |monthly| ==>
              monthly[i].date != monthly[j].date && LexLe(monthly[i].date, monthly[j].date)
    ensures forall i :: 0 <= i < |monthly| ==> monthly[i].count >= 1
    ensures SumOver(monthly, PointCount) == |weekday|
  {
    var monthlyCounts := CountAll(weekday, MonthOf);
    var points := TrendPoints(monthlyCounts);
    EarlierDateOrders();
    monthly := Sorted(points, EarlierDate);
    TabulatesPermutation(points, monthly, monthlyCounts);
    SumOverPermutation(points, monthly, PointCount);
  }

  /**
   * `points` tabulates `counts`: one point per key, in some order, each
   * carrying that key's counter.
   */
  ghost predicate Tabulates(points: seq<TrendPoint>, counts: Tally)
  {
    && (forall i :: 0 <= i < |points| ==> points[i].date in counts && points[i].count == counts[points[i].date])
    && (forall m :: m in counts ==> HasPoint(points, m))
    && DistinctKeys(points, PointDate)
  }

  /** Reordering a table keeps it a table of the same counters. */
  lemma TabulatesPermutation(points: seq<TrendPoint>, reordered: seq<TrendPoint>, counts: Tally)
    requires Tabulates(points, counts)
    requires multiset(points) == multiset(reordered)
    ensures Tabulates(reordered, counts)
  {
    DistinctKeysPermutation(points, reordered, PointDate);
    forall i | 0 <= i < |reordered|
      ensures reordered[i].date in counts && reordered[i].count == counts[reordered[i].date]
    {
      assert reordered[i] in multiset(points);
    }
    forall m | m in counts
      ensures HasPoint(reordered, m)
    {
      var p :| 0 <= p < |points| && points[p].date == m;
      assert points[p] in multiset(reordered);
    }
  }

  /** `Object.entries(monthlyCounts).map(([date, count]) => ({ date, count }))`. */
  method TrendPoints(counts: Tally) returns (points: seq<TrendPoint>)
    ensures Tabulates(points, counts)
    ensures SumOver(points, PointCount) == Total(counts)
  {
    var entries := Entries(counts);
    points := seq(|entries|, i requires 0 <= i < |entries| => TrendPoint(entries[i].0, entries[i].1));
    PointsTabulate(entries, counts, points);
    PointsTotal(entries, counts, points);
  }

  /** One point per listed entry tabulates the dictionary. */
  lemma PointsTabulate(entries: seq<(string, nat)>, counts: Tally, points: seq<TrendPoint>)
    requires Lists(entries, counts)
    requires |points| == |entries|
    requires forall i :: 0 <= i < |points| ==> points[i] == TrendPoint(entries[i].0, entries[i].1)
    ensures Tabulates(points, counts)
  {
    forall m | m in counts
      ensures HasPoint(points, m)
    {
      var p :| 0 <= p < |entries| && entries[p].0 == m;
      assert points[p].date == m;
    }
    assert DistinctKeys(points, PointDate) by {
      forall i, j | 0 <= i < j < |points| ensures PointDate(points[i]) != PointDate(points[j]) {
        assert points[i].date == entries[i].0 && points[j].date == entries[j].0;
      }
    }
  }

  lemma PointsTotal(entries: seq<(string, nat)>, counts: Tally, points: seq<TrendPoint>)
    requires Lists(entries, counts)
    requires |points| == |entries|
    requires forall i :: 0 <= i < |points| ==> points[i].count == entries[i].1
    ensures SumOver(points, PointCount) == Total(counts)
  {
    SumOverPointwise(points, PointCount, entries, CountValue);
    ListsTotal(entries, counts, CountValue);
  }

  /** The points of `cumulative` carry the running totals of the first points of `monthly`. */
  ghost predicate RunningTotals(cumulative: seq<TrendPoint>, monthly: seq<TrendPoint>)
  {
    && |cumulative| <= |monthly|
    && forall k :: 0 <= k < |cumulative| ==>
         cumulative[k].date == monthly[k].date &&
         cumulative[k].count == SumOver(monthly[..k + 1], PointCount)
  }

  /** The counts of `points` strictly increase. */
  ghost predicate Increasing(points: seq<TrendPoint>)
  {
    forall k, l :: 0 <= k < l < |points| ==> points[k].count < points[l].count
  }

  /** One more point of running total. */
  lemma RunningTotalsStep(cumulative: seq<TrendPoint>, monthly: seq<TrendPoint>, last: int)
    requires RunningTotals(cumulative, monthly) && |cumulative| < |monthly|
    requires last == if |cumulative| > 0 then cumulative[|cumulative| - 1].count else 0
    ensures last + monthly[|cumulative|].count >= 0
    ensures RunningTotals(cumulative + [TrendPoint(monthly[|cumulative|].date,
                                                   last + monthly[|cumulative|].count)], monthly)
  {
    var i := |cumulative|;
    var q := cumulative + [TrendPoint(monthly[i].date, last + monthly[i].count)];
    assert monthly[..i + 1][..i] == monthly[..i];
    assert SumOver(monthly[..i + 1], PointCount) == SumOver(monthly[..i], PointCount) + monthly[i].count;
    if i > 0 {
      assert SumOver(monthly[..i], PointCount) == last;
    }
    assert SumOver(monthly[..i + 1], PointCount) == last + monthly[i].count;
    forall k | 0 <= k < |q|
      ensures q[k].date == monthly[k].date && q[k].count == SumOver(monthly[..k + 1], PointCount)
    {
      if k < i {
        assert q[k] == cumulative[k];
      }
    }
  }

  /** A count above the last keeps the counts increasing. */
  lemma IncreasingSnoc(points: seq<TrendPoint>, p: TrendPoint)
    requires Increasing(points)
    requires points != [] ==> points[|points| - 1].count < p.count
    ensures Increasing(points + [p])
  {
    var q := points + [p];
    forall k, l | 0 <= k < l < |q|
      ensures q[k].count < q[l].count
    {
      if l == |points| && k < |points| - 1 {
        assert q[k] == points[k] && points[k].count < points[|points| - 1].count;
      }
    }
  }

  /**
   * The `reduce` that builds the running totals: each point carries the
   * sum of the counts up to and including its month.
   */
  method Cumulative(monthly: seq<TrendPoint>) returns (cumulative: seq<TrendPoint>)
    ensures |cumulative| == |monthly|
    ensures RunningTotals(cumulative, monthly)
    ensures (forall i :: 0 <= i < |monthly| ==> monthly[i].count >= 1) ==> Increasing(cumulative)
  {
    cumulative := [];
    ghost var positive := forall k :: 0 <= k < |monthly| ==> monthly[k].count >= 1;
    for i := 0 to |monthly|
      invariant |cumulative| == i
      invariant RunningTotals(cumulative, monthly)
      invariant positive ==> Increasing(cumulative)
    {
      var lastCount := if |cumulative| > 0 then cumulative[|cumulative| - 1].count else 0;
      RunningTotalsStep(cumulative, monthly, lastCount);
      var point := TrendPoint(monthly[i].date, lastCount + monthly[i].count);
      if positive {
        IncreasingSnoc(cumulative, point);
      }
      cumulative := cumulative + [point];
    }
  }

  // ---------------------------------------------------------------------
  // getVersionUpgradePattern
  // ---------------------------------------------------------------------

  /** `(a, b) => unix(a) - unix(b)`: earlier releases first. */
  predicate PublishedNoLater(a: Release, b: Release)
  {
    a.publishedAtKST.instant <= b.publishedAtKST.instant
  }

  lemma PublishedNoLaterOrders()
    ensures TotalPreorder(PublishedNoLater)
  {
  }

  /** `chrono` is `rs` put in order of publication. */
  ghost predicate Chronological(chrono: seq<Release>, rs: seq<Release>)
  {
    multiset(chrono) == multiset(rs) && SortedBy(chrono, PublishedNoLater)
  }

  /** The releases that have a successor: all but the last. */
  function Leading(s: seq<Release>): (r: seq<Release>)
    ensures |r| == if s == [] then 0 else |s| - 1
    ensures forall i :: 0 <= i < |r| ==> r[i] == s[i]
  {
    if s == [] then [] else s[..|s| - 1]
  }

  /**
   * The days pushed under kind `t` while walking the first `n` releases of
   * `s` in order: the gap from each release to the next, filed under the
   * kind of the earlier one.
   */
  function Gaps(s: seq<Release>, n: nat, t: string): seq<int>
    requires n <= |s|
  {
    if n < 2 then []
    else
      Gaps(s, n - 1, t) +
        (if TypeKey(s[n - 2]) == t then [DayDiff(s[n - 1].publishedAtKST, s[n - 2].publishedAtKST)] else [])
  }

  /** The days pushed under kind `t` once all of `s` is walked. */
  function GapDays(s: seq<Release>, t: string): seq<int>
  {
    Gaps(s, |s|, t)
  }

  lemma {:induction false} GapsCount(s: seq<Release>, n: nat, t: string)
    requires 1 <= n <= |s|
    ensures |Gaps(s, n, t)| == CountWhere(s[..n - 1], TypeKey, t)
  {
    if n >= 2 {
      GapsCount(s, n - 1, t);
      assert s[..n - 1][..n - 2] == s[..n - 2];
    }
  }

  /** Kind `t` gets one gap for each release of kind `t` that has a successor. */
  lemma GapDaysCount(s: seq<Release>, t: string)
    ensures |GapDays(s, t)| == CountWhere(Leading(s), TypeKey, t)
  {
    if s != [] {
      GapsCount(s, |s|, t);
    }
  }

  /** The kinds with gaps are the kinds of the releases that have a successor. */
  lemma GapKinds(s: seq<Release>)
    ensures forall t :: GapDays(s, t) != [] <==> t in KeySet(Leading(s), TypeKey)
  {
    CountWhereOccurs(Leading(s), TypeKey);
    forall t
      ensures GapDays(s, t) != [] <==> t in KeySet(Leading(s), TypeKey)
    {
      GapDaysCount(s, t);
    }
  }

  function DayCount(d: int): int
  {
    d
  }

  /** `Math.round(days.reduce((a, b) => a + b, 0) / days.length)`. */
  function MeanDays(days: seq<int>): int
    requires days != []
  {
    RoundDiv(SumOver(days, DayCount), |days|)
  }

  /** A kind, how many gaps start at a release of that kind, and their rounded mean in days. */
  datatype PatternRow = PatternRow(releaseType: string, count: nat, avgDays: int)

  /** What is gathered per kind: the number of gaps and the gaps in days. */
  datatype PatternAcc = PatternAcc(count: nat, days: seq<int>)

  /** The row for kind `t`, which starts a gap somewhere in `chrono`. */
  function PatternRowFor(chrono: seq<Release>, t: string): PatternRow
    requires GapDays(chrono, t) != []
  {
    PatternRow(t, |GapDays(chrono, t)|, MeanDays(GapDays(chrono, t)))
  }

  function RowType(r: PatternRow): string
  {
    r.releaseType
  }

  function RowCount(r: PatternRow): int
  {
    r.count
  }

  function AccCount(acc: PatternAcc): int
  {
    acc.count
  }

  /** `(a, b) => b.count - a.count`: more gaps first. */
  predicate MoreGaps(a: PatternRow, b: PatternRow)
  {
    a.count >= b.count
  }

  /** Kind `t` has a row in `rows`. */
  ghost predicate HasRow(rows: seq<PatternRow>, t: string)
  {
    exists j :: 0 <= j < |rows| && rows[j].releaseType == t
  }

  /**
   * `rows` holds exactly one row for each kind that starts a gap in
   * `chrono`, and it is that kind's row.
   */
  ghost predicate DescribesGaps(rows: seq<PatternRow>, chrono: seq<Release>)
  {
    && (forall i :: 0 <= i < |rows| ==>
          GapDays(chrono, rows[i].releaseType) != [] &&
          rows[i] == PatternRowFor(chrono, rows[i].releaseType))
    && (forall t :: GapDays(chrono, t) != [] ==> HasRow(rows, t))
    && DistinctKeys(rows, RowType)
  }

  /**
   * What a description of the gaps says in terms of the releases: the kinds
   * shown are the kinds of the releases that have a successor, and each
   * count is the number of such releases of that kind.
   */
  lemma DescribedKinds(rows: seq<PatternRow>, chrono: seq<Release>)
    requires DescribesGaps(rows, chrono)
    ensures forall i :: 0 <= i < |rows| ==>
              rows[i].releaseType in KeySet(Leading(chrono), TypeKey) &&
              rows[i].count == CountWhere(Leading(chrono), TypeKey, rows[i].releaseType)
    ensures forall t :: t in KeySet(Leading(chrono), TypeKey) ==> HasRow(rows, t)
  {
    GapKinds(chrono);
    forall i | 0 <= i < |rows|
      ensures rows[i].count == CountWhere(Leading(chrono), TypeKey, rows[i].releaseType)
    {
      GapDaysCount(chrono, rows[i].releaseType);
    }
  }

  /**
   * `getVersionUpgradePattern`: the weekday releases in order of
   * publication, and for each kind the number of times a release of that
   * kind was followed by another and the rounded mean of those gaps in
   * days, most frequent kind first. The counts add up to one less than the
   * number of weekday releases, and no mean is negative.
   */
  method GetVersionUpgradePattern(data: seq<Release>) returns (patterns: seq<PatternRow>)
    ensures exists chrono :: Chronological(chrono, WeekdayReleases(data)) && DescribesGaps(patterns, chrono)
    ensures forall i :: 0 <= i < |patterns| ==> patterns[i].releaseType in KeySet(WeekdayReleases(data), TypeKey)
    ensures forall i, j :: 0 <= i < j < |patterns| ==> patterns[i].releaseType != patterns[j].releaseType
    ensures forall i, j :: 0 <= i < j < |patterns| ==> patterns[i].count >= patterns[j].count
    ensures forall i :: 0 <= i < |patterns| ==> patterns[i].avgDays >= 0
    ensures SumOver(patterns, RowCount) == if WeekdayReleases(data) == [] then 0 else |WeekdayReleases(data)| - 1
  {
    var weekday := WeekdayReleases(data);
    PublishedNoLaterOrders();
    var chrono := Sorted(weekday, PublishedNoLater);
    patterns := UpgradePatterns(chrono);
    assert Chronological(chrono, weekday);
    DescribedKinds(patterns, chrono);
    forall i | 0 <= i < |patterns|
      ensures patterns[i].releaseType in KeySet(weekday, TypeKey)
    {
      var t := patterns[i].releaseType;
      var k :| 0 <= k < |Leading(chrono)| && TypeKey(Leading(chrono)[k]) == t;
      assert chrono[k] in multiset(weekday);
    }
    assert |chrono| == |multiset(chrono)| == |multiset(weekday)| == |weekday|;
  }

  /** Lines 173-197 of `getVersionUpgradePattern`, over releases already in order. */
  method UpgradePatterns(chrono: seq<Release>) returns (patterns: seq<PatternRow>)
    requires SortedBy(chrono, PublishedNoLater)
    ensures DescribesGaps(patterns, chrono)
    ensures forall i, j :: 0 <= i < j < |patterns| ==> patterns[i].count >= patterns[j].count
    ensures forall i :: 0 <= i < |patterns| ==> patterns[i].avgDays >= 0
    ensures SumOver(patterns, RowCount) == |Leading(chrono)|
  {
    var gathered := GatherPatterns(chrono);
    var rows := PatternRows(chrono, gathered);
    patterns := Sorted(rows, MoreGaps);
    PatternPermutation(chrono, rows, patterns);
    SumOverPermutation(rows, patterns, RowCount);
    forall i | 0 <= i < |patterns|
      ensures patterns[i].avgDays >= 0
    {
      MeanDaysNonNegative(chrono, patterns[i].releaseType);
    }
  }

  /** The dictionary of `UpgradePatterns` after walking the first `i` releases of `chrono`. */
  ghost predicate Patterned(chrono: seq<Release>, i: nat, patterns: map<string, PatternAcc>)
    requires i <= |chrono|
  {
    && (forall t :: t in patterns <==> Gaps(chrono, i, t) != [])
    && (forall t :: t in patterns ==> patterns[t] == PatternAcc(|Gaps(chrono, i, t)|, Gaps(chrono, i, t)))
    && TotalBy(patterns, AccCount) == if i == 0 then 0 else i - 1
  }

  /** The `forEach` of `getVersionUpgradePattern`, with `lastRelease` carried from turn to turn. */
  method GatherPatterns(chrono: seq<Release>) returns (patterns: map<string, PatternAcc>)
    ensures Patterned(chrono, |chrono|, patterns)
  {
    patterns := map[];
    var lastRelease: Option<Release> := None;
    for i := 0 to |chrono|
      invariant Patterned(chrono, i, patterns)
      invariant lastRelease == if i == 0 then None else Some(chrono[i - 1])
    {
      var release := chrono[i];
      if lastRelease.Some? {
        var lastType := TypeKey(lastRelease.value);
        var days := DayDiff(release.publishedAtKST, lastRelease.value.publishedAtKST);
        ghost var before := patterns;
        if lastType !in patterns {
          patterns := patterns[lastType := PatternAcc(0, [])];
        }
        patterns := patterns[lastType := PatternAcc(patterns[lastType].count + 1, patterns[lastType].days + [days])];
        PatternedStep(chrono, i, before, lastType, days, patterns);
      } else {
        PatternedFirst(chrono);
      }
      lastRelease := Some(release);
    }
  }

  /** The dictionary once gap `d` is filed under kind `t`, its entry created first if need be. */
  function File(patterns: map<string, PatternAcc>, t: string, d: int): map<string, PatternAcc>
  {
    var created := if t in patterns then patterns else patterns[t := PatternAcc(0, [])];
    created[t := PatternAcc(created[t].count + 1, created[t].days + [d])]
  }

  lemma PatternedFirst(chrono: seq<Release>)
    requires chrono != []
    ensures Patterned(chrono, 1, map[])
  {
    assert TotalBy(map[], AccCount) == 0;
  }

  /**
   * One turn of the loop of `GatherPatterns` after the first: the gap from
   * the previous release is filed under the previous release's kind.
   */
  lemma PatternedStep(chrono: seq<Release>, i: nat, patterns: map<string, PatternAcc>,
                      t: string, d: int, filed: map<string, PatternAcc>)
    requires 0 < i < |chrono|
    requires Patterned(chrono, i, patterns)
    requires t == TypeKey(chrono[i - 1]) && d == DayDiff(chrono[i].publishedAtKST, chrono[i - 1].publishedAtKST)
    requires filed == File(patterns, t, d)
    ensures Patterned(chrono, i + 1, filed)
  {
    FiledTotal(patterns, t, d);
    forall u
      ensures u in filed <==> Gaps(chrono, i + 1, u) != []
      ensures u in filed ==> filed[u] == PatternAcc(|Gaps(chrono, i + 1, u)|, Gaps(chrono, i + 1, u))
    {
      if u != t {
        assert Gaps(chrono, i + 1, u) == Gaps(chrono, i, u);
      } else if t !in patterns {
        assert [] + [d] == [d];
      }
    }
  }

  /** Filing one more gap adds one to the number of gaps. */
  lemma FiledTotal(patterns: map<string, PatternAcc>, t: string, d: int)
    ensures TotalBy(File(patterns, t, d), AccCount) == TotalBy(patterns, AccCount) + 1
  {
    var created := if t in patterns then patterns else patterns[t := PatternAcc(0, [])];
    var v := PatternAcc(created[t].count + 1, created[t].days + [d]);
    assert File(patterns, t, d) == patterns[t := v];
    TotalByUpdate(patterns, t, v, AccCount);
    if t !in patterns {
      assert patterns - {t} == patterns;
    }
  }

  /** `Object.entries(patterns).map(...)`: one row per kind, each that kind's row. */
  method PatternRows(chrono: seq<Release>, gathered: map<string, PatternAcc>) returns (rows: seq<PatternRow>)
    requires Patterned(chrono, |chrono|, gathered)
    ensures DescribesGaps(rows, chrono)
    ensures SumOver(rows, RowCount) == |Leading(chrono)|
  {
    var entries := Entries(gathered);
    EntriesHaveDays(chrono, gathered, entries);
    rows := seq(|entries|, i requires 0 <= i < |entries| && entries[i].1.days != [] =>
      PatternRow(entries[i].0, entries[i].1.count, MeanDays(entries[i].1.days)));
    RowsDescribe(chrono, gathered, entries, rows);
    RowsTotal(entries, gathered, rows);
  }

  lemma EntriesHaveDays(chrono: seq<Release>, gathered: map<string, PatternAcc>, entries: seq<(string, PatternAcc)>)
    requires Patterned(chrono, |chrono|, gathered)
    requires Lists(entries, gathered)
    ensures forall i :: 0 <= i < |entries| ==> entries[i].1.days != []
  {
  }

  /** Rows made from the entries of the gathered dictionary describe the gaps. */
  lemma RowsDescribe(chrono: seq<Release>, gathered: map<string, PatternAcc>, entries: seq<(string, PatternAcc)>, rows: seq<PatternRow>)
    requires Patterned(chrono, |chrono|, gathered)
    requires Lists(entries, gathered)
    requires |rows| == |entries|
    requires forall i :: 0 <= i < |rows| ==>
               entries[i].1.days != [] &&
               rows[i] == PatternRow(entries[i].0, entries[i].1.count, MeanDays(entries[i].1.days))
    ensures DescribesGaps(rows, chrono)
  {
    forall t | GapDays(chrono, t) != []
      ensures HasRow(rows, t)
    {
      var p :| 0 <= p < |entries| && entries[p].0 == t;
      assert rows[p].releaseType == t;
    }
    assert DistinctKeys(rows, RowType) by {
      forall i, j | 0 <= i < j < |rows| ensures RowType(rows[i]) != RowType(rows[j]) {
        assert rows[i].releaseType == entries[i].0 && rows[j].releaseType == entries[j].0;
      }
    }
  }

  lemma RowsTotal(entries: seq<(string, PatternAcc)>, gathered: map<string, PatternAcc>, rows: seq<PatternRow>)
    requires Lists(entries, gathered)
    requires |rows| == |entries|
    requires forall i :: 0 <= i < |rows| ==> rows[i].count == entries[i].1.count
    ensures SumOver(rows, RowCount) == TotalBy(gathered, AccCount)
  {
    SumOverPointwise(rows, RowCount, entries, AccCount);
    ListsTotal(entries, gathered, AccCount);
  }

  /** Sorting the rows keeps them a description of the gaps. */
  lemma PatternPermutation(chrono: seq<Release>, rows: seq<PatternRow>, sorted: seq<PatternRow>)
    requires DescribesGaps(rows, chrono)
    requires multiset(sorted) == multiset(rows)
    ensures DescribesGaps(sorted, chrono)
  {
    DistinctKeysPermutation(rows, sorted, RowType);
    forall i | 0 <= i < |sorted|
      ensures GapDays(chrono, sorted[i].releaseType) != [] &&
              sorted[i] == PatternRowFor(chrono, sorted[i].releaseType)
    {
      assert sorted[i] in multiset(rows);
    }
    forall t | GapDays(chrono, t) != []
      ensures HasRow(sorted, t)
    {
      var p :| 0 <= p < |rows| && rows[p].releaseType == t;
      assert rows[p] in multiset(sorted);
    }
  }

  /** In order of publication no gap is negative. */
  lemma {:induction false} GapsNonNegative(chrono: seq<Release>, n: nat, t: string)
    requires n <= |chrono|
    requires SortedBy(chrono, PublishedNoLater)
    ensures forall k :: 0 <= k < |Gaps(chrono, n, t)| ==> Gaps(chrono, n, t)[k] >= 0
  {
    if n >= 2 {
      GapsNonNegative(chrono, n - 1, t);
      assert PublishedNoLater(chrono[n - 2], chrono[n - 1]);
    }
  }

  lemma {:induction false} SumNonNegative(days: seq<int>)
    requires forall k :: 0 <= k < |days| ==> days[k] >= 0
    ensures SumOver(days, DayCount) >= 0
    decreases |days|
  {
    if days != [] {
      SumNonNegative(days[..|days| - 1]);
    }
  }

  /** In order of publication every kind's mean gap is at least zero. */
  lemma MeanDaysNonNegative(chrono: seq<Release>, t: string)
    requires SortedBy(chrono, PublishedNoLater)
    requires GapDays(chrono, t) != []
    ensures PatternRowFor(chrono, t).avgDays >= 0
  {
    GapsNonNegative(chrono, |chrono|, t);
    SumNonNegative(GapDays(chrono, t));
    RoundDivNonNegative(SumOver(GapDays(chrono, t), DayCount), |GapDays(chrono, t)|);
  }

  /**
   * The gap between two releases is filed under the kind of the earlier
   * one; the later one's kind gets nothing from it.
   */
  lemma GapFiledUnderEarlier(a: Release, b: Release)
    ensures GapDays([a, b], TypeKey(a)) == [DayDiff(b.publishedAtKST, a.publishedAtKST)]
    ensures TypeKey(b) != TypeKey(a) ==> GapDays([a, b], TypeKey(b)) == []
  {
    var d := DayDiff(b.publishedAtKST, a.publishedAtKST);
    assert Gaps([a, b], 1, TypeKey(a)) == [] && Gaps([a, b], 1, TypeKey(b)) == [];
    assert [] + [d] == [d];
  }
}
