/**
 * The server's aggregator (`analyzeReleases`): one pass over the fetched
 * releases of a repository fills nine period counters (six over every
 * release, three over the releases created on a weekday), every counter
 * becomes one `(repo, stat_type, period, value)` row, and the rows are
 * sorted by the rank of their type and then by period.
 */
module AnalyzeReleases {
  import opened Collections
  import opened Text
  import opened Tallies
  import opened Calendar

  /** The one field of a fetched release the aggregator reads, `created_at`, taken already decoded. */
  datatype GitHubRelease = GitHubRelease(createdAt: Moment)

  /** The nine values of `stat_type`. */
  datatype StatType =
    | Yearly | WorkdayYearly | Monthly | WorkdayMonthly | Weekly | WorkdayWeekly
    | Daily | DayOfWeek | HourOfDay
  {
    /** The string the row carries. */
    function Name(): string
    {
      match this
      case Yearly => "yearly"
      case WorkdayYearly => "workday_yearly"
      case Monthly => "monthly"
      case WorkdayMonthly => "workday_monthly"
      case Weekly => "weekly"
      case WorkdayWeekly => "workday_weekly"
      case Daily => "daily"
      case DayOfWeek => "day_of_week"
      case HourOfDay => "hour_of_day"
    }

    /** The place of the type in the sorted output (`typeOrder`). */
    function Rank(): nat
    {
      match this
      case Yearly => 0
      case WorkdayYearly => 1
      case Monthly => 2
      case WorkdayMonthly => 3
      case Weekly => 4
      case WorkdayWeekly => 5
      case Daily => 6
      case DayOfWeek => 7
      case HourOfDay => 8
    }

    /** The three types that count only releases created on a weekday. */
    predicate IsWorkday()
    {
      this == WorkdayYearly || this == WorkdayMonthly || this == WorkdayWeekly
    }

    /** The type over every release that a workday type restricts. */
    function Unrestricted(): StatType
    {
      match this
      case WorkdayYearly => Yearly
      case WorkdayMonthly => Monthly
      case WorkdayWeekly => Weekly
      case _ => this
    }
  }

  /** Distinct types carry distinct names and distinct ranks, and every rank is below nine. */
  lemma StatTypesDistinct()
    ensures forall s: StatType, t: StatType :: s.Name() == t.Name() ==> s == t
    ensures forall s: StatType, t: StatType :: s.Rank() == t.Rank() ==> s == t
    ensures forall t: StatType :: t.Rank() < 9
  {
    forall s: StatType, t: StatType | s.Name() == t.Name()
      ensures s == t
    {
      assert s.Name()[0] == t.Name()[0];
      assert |s.Name()| == |t.Name()|;
      if |s.Name()| == 14 {
        assert s.Name()[8] == t.Name()[8];
      }
    }
  }

  /** One output row. */
  datatype StatRow = StatRow(repo: string, statType: StatType, period: string, value: nat)

  /** The nine period counters, one per statistic type. */
  datatype Counters = Counters(yearly: Tally, workdayYearly: Tally, monthly: Tally, workdayMonthly: Tally,
                               weekly: Tally, workdayWeekly: Tally, daily: Tally, dayOfWeek: Tally,
                               hourOfDay: Tally)
  {
    function Get(t: StatType): Tally
    {
      match t
      case Yearly => yearly
      case WorkdayYearly => workdayYearly
      case Monthly => monthly
      case WorkdayMonthly => workdayMonthly
      case Weekly => weekly
      case WorkdayWeekly => workdayWeekly
      case Daily => daily
      case DayOfWeek => dayOfWeek
      case HourOfDay => hourOfDay
    }
  }

  // ---------------------------------------------------------------------
  // What each counter is keyed by, and over which releases
  // ---------------------------------------------------------------------

  function YearOf(r: GitHubRelease): string
  {
    YearKey(r.createdAt)
  }

  function MonthOf(r: GitHubRelease): string
  {
    MonthKey(r.createdAt)
  }

  function WeekOf(r: GitHubRelease): string
  {
    WeekKey(r.createdAt)
  }

  function DayOf(r: GitHubRelease): string
  {
    DayKey(r.createdAt)
  }

  function DayOfWeekOf(r: GitHubRelease): string
  {
    DayName(r.createdAt)
  }

  function HourOf(r: GitHubRelease): string
  {
    HourKey(r.createdAt)
  }

  /** The period key a type counts by; a workday type shares its unrestricted type's key. */
  function KeyOf(t: StatType): GitHubRelease -> string
  {
    match t
    case Yearly | WorkdayYearly => YearOf
    case Monthly | WorkdayMonthly => MonthOf
    case Weekly | WorkdayWeekly => WeekOf
    case Daily => DayOf
    case DayOfWeek => DayOfWeekOf
    case HourOfDay => HourOf
  }

  /** The releases not created on a Saturday or a Sunday, order kept (see `WorkdaysMembers`). */
  function Workdays(rs: seq<GitHubRelease>): seq<GitHubRelease>
  {
    if rs == [] then []
    else
      var rest := Workdays(rs[..|rs| - 1]);
      if IsWeekend(rs[|rs| - 1].createdAt) then rest else rest + [rs[|rs| - 1]]
  }

  /** `Workdays` keeps exactly the releases created on a weekday. */
  lemma {:induction false} WorkdaysMembers(rs: seq<GitHubRelease>)
    ensures |Workdays(rs)| <= |rs|
    ensures forall x :: x in Workdays(rs) <==> x in rs && !IsWeekend(x.createdAt)
    decreases |rs|
  {
    if rs != [] {
      var front := rs[..|rs| - 1];
      assert rs == front + [rs[|rs| - 1]];
      WorkdaysMembers(front);
    }
  }

  /** The positions in `rs` of the releases created on a Saturday or a Sunday. */
  function WeekendPositions(rs: seq<GitHubRelease>): set<nat>
  {
    set i: nat | i < |rs| && IsWeekend(rs[i].createdAt)
  }

  /** `Workdays` drops exactly the releases created on a weekend, one for each. */
  lemma {:induction false} WorkdaysCount(rs: seq<GitHubRelease>)
    ensures |Workdays(rs)| + |WeekendPositions(rs)| == |rs|
    decreases |rs|
  {
    if rs != [] {
      var front, n := rs[..|rs| - 1], |rs| - 1;
      WorkdaysCount(front);
      if IsWeekend(rs[n].createdAt) {
        assert WeekendPositions(rs) == WeekendPositions(front) + {n};
      } else {
        assert WeekendPositions(rs) == WeekendPositions(front);
      }
    }
  }

  /** The releases a type counts: the weekday ones for a workday type, all of them otherwise. */
  function Counted(rs: seq<GitHubRelease>, t: StatType): seq<GitHubRelease>
  {
    if t.IsWorkday() then Workdays(rs) else rs
  }

  /**
   * The counter of type `t` after the loop has counted the releases `rs` in
   * order: each release bumps the counter under its key, except that a
   * workday counter skips the releases created on a weekend.
   */
  function Bucket(rs: seq<GitHubRelease>, t: StatType): Tally
  {
    if rs == [] then map[]
    else
      var r := rs[|rs| - 1];
      var prev := Bucket(rs[..|rs| - 1], t);
      if t.IsWorkday() && IsWeekend(r.createdAt) then prev else Bump(prev, KeyOf(t)(r))
  }

  /** A counter is the counting of the releases its type counts by its key. */
  lemma {:induction false} BucketIsTally(rs: seq<GitHubRelease>, t: StatType)
    ensures Bucket(rs, t) == TallyBy(map[], Counted(rs, t), KeyOf(t))
    decreases |rs|
  {
    if rs != [] {
      var front, r := rs[..|rs| - 1], rs[|rs| - 1];
      BucketIsTally(front, t);
      var xs := Counted(front, t);
      if t.IsWorkday() && IsWeekend(r.createdAt) {
        assert Counted(rs, t) == xs;
      } else if t.IsWorkday() {
        assert Counted(rs, t) == xs + [r];
        TallyBySnoc(map[], xs, r, KeyOf(t));
      } else {
        assert rs == xs + [r];
        TallyBySnoc(map[], xs, r, KeyOf(t));
      }
    }
  }

  /** One turn of the counting loop, for the counter of type `t`. */
  lemma {:induction false} BucketPrefix(rs: seq<GitHubRelease>, i: nat, t: StatType)
    requires i < |rs|
    ensures Bucket(rs[..i + 1], t) ==
              if t.IsWorkday() && IsWeekend(rs[i].createdAt) then Bucket(rs[..i], t)
              else Bump(Bucket(rs[..i], t), KeyOf(t)(rs[i]))
  {
    assert rs[..i + 1][..i] == rs[..i];
  }

  /**
   * Each finished counter holds the keys of the releases its type counts,
   * each with the number of those releases, at least one; and the counters
   * sum to the number of releases counted.
   */
  lemma BucketCounts(rs: seq<GitHubRelease>, t: StatType)
    ensures Bucket(rs, t).Keys == KeySet(Counted(rs, t), KeyOf(t))
    ensures forall p :: p in Bucket(rs, t) ==>
              Bucket(rs, t)[p] == CountWhere(Counted(rs, t), KeyOf(t), p) >= 1
    ensures Total(Bucket(rs, t)) == |Counted(rs, t)|
  {
    BucketIsTally(rs, t);
    TallyByCounts(map[], Counted(rs, t), KeyOf(t));
    TallyByPositive(Counted(rs, t), KeyOf(t));
    TallyByTotal(map[], Counted(rs, t), KeyOf(t));
    ZeroTotal(map[]);
  }

  // ---------------------------------------------------------------------
  // The counting pass
  // ---------------------------------------------------------------------

  /** Each of `counters` holds the counts of its type over the releases `rs`. */
  ghost predicate CountsPeriods(counters: Counters, rs: seq<GitHubRelease>)
  {
    forall t {:trigger Bucket(rs, t)} :: counters.Get(t) == Bucket(rs, t)
  }

  /**
   * What one turn of the loop does to the counter of type `t`: the release
   * bumps it under the release's key, except that a release created on a
   * weekend leaves a workday counter as it is.
   */
  function Step(c: Counters, r: GitHubRelease, t: StatType): Tally
  {
    if t.IsWorkday() && IsWeekend(r.createdAt) then c.Get(t) else Bump(c.Get(t), KeyOf(t)(r))
  }

  /** One turn of the loop body, on all nine counters. */
  function CountRelease(c: Counters, r: GitHubRelease): Counters
  {
    Counters(Step(c, r, Yearly), Step(c, r, WorkdayYearly), Step(c, r, Monthly), Step(c, r, WorkdayMonthly),
             Step(c, r, Weekly), Step(c, r, WorkdayWeekly), Step(c, r, Daily), Step(c, r, DayOfWeek),
             Step(c, r, HourOfDay))
  }

  /** The counter of each type after a turn is that type's step. */
  lemma CountReleaseGet(c: Counters, r: GitHubRelease, t: StatType)
    ensures CountRelease(c, r).Get(t) == Step(c, r, t)
  {
  }

  /** Counting release `i` keeps the counters those of the releases counted so far. */
  lemma CountsStep(rs: seq<GitHubRelease>, i: nat, c: Counters)
    requires i < |rs| && CountsPeriods(c, rs[..i])
    ensures CountsPeriods(CountRelease(c, rs[i]), rs[..i + 1])
  {
    forall t
      ensures CountRelease(c, rs[i]).Get(t) == Bucket(rs[..i + 1], t)
    {
      BucketPrefix(rs, i, t);
      CountReleaseGet(c, rs[i], t);
    }
  }

  /** The year counters' turn as the loop body writes it. */
  lemma YearStep(c: Counters, r: GitHubRelease)
    ensures Step(c, r, Yearly) == Bump(c.yearly, YearOf(r))
    ensures Step(c, r, WorkdayYearly) == if IsWeekend(r.createdAt) then c.workdayYearly else Bump(c.workdayYearly, YearOf(r))
  {
  }

  /** The month counters' turn as the loop body writes it. */
  lemma MonthStep(c: Counters, r: GitHubRelease)
    ensures Step(c, r, Monthly) == Bump(c.monthly, MonthOf(r))
    ensures Step(c, r, WorkdayMonthly) == if IsWeekend(r.createdAt) then c.workdayMonthly else Bump(c.workdayMonthly, MonthOf(r))
  {
  }

  /** The week counters' turn as the loop body writes it. */
  lemma WeekStep(c: Counters, r: GitHubRelease)
    ensures Step(c, r, Weekly) == Bump(c.weekly, WeekOf(r))
    ensures Step(c, r, WorkdayWeekly) == if IsWeekend(r.createdAt) then c.workdayWeekly else Bump(c.workdayWeekly, WeekOf(r))
  {
  }

  /** The day counter's turn as the loop body writes it. */
  lemma DayStep(c: Counters, r: GitHubRelease)
    ensures Step(c, r, Daily) == Bump(c.daily, DayOf(r))
  {
  }

  /** The weekday name counter's turn as the loop body writes it. */
  lemma DayNameStep(c: Counters, r: GitHubRelease)
    ensures Step(c, r, DayOfWeek) == Bump(c.dayOfWeek, DayOfWeekOf(r))
  {
  }

  /** The hour counter's turn as the loop body writes it. */
  lemma HourStep(c: Counters, r: GitHubRelease)
    ensures Step(c, r, HourOfDay) == Bump(c.hourOfDay, HourOf(r))
  {
  }

  /** Before the loop every counter is empty, as is every counter over no releases. */
  lemma CountsNothing(rs: seq<GitHubRelease>)
    ensures CountsPeriods(Counters(map[], map[], map[], map[], map[], map[], map[], map[], map[]), rs[..0])
  {
    forall t
      ensures Counters(map[], map[], map[], map[], map[], map[], map[], map[], map[]).Get(t) == Bucket(rs[..0], t)
    {
      assert rs[..0] == [];
    }
  }

  /** The `forEach` over the releases that fills the nine counters. */
  method CountPeriods(releases: seq<GitHubRelease>)
    returns (yearly: Tally, monthly: Tally, weekly: Tally, daily: Tally,
             dayOfWeek: Tally, hourOfDay: Tally,
             workdayYearly: Tally, workdayMonthly: Tally, workdayWeekly: Tally)
    ensures CountsPeriods(Counters(yearly, workdayYearly, monthly, workdayMonthly, weekly, workdayWeekly,
                                   daily, dayOfWeek, hourOfDay), releases)
  {
    yearly, monthly, weekly, daily, dayOfWeek, hourOfDay := map[], map[], map[], map[], map[], map[];
    workdayYearly, workdayMonthly, workdayWeekly := map[], map[], map[];
    CountsNothing(releases);
    for i := 0 to |releases|
      invariant CountsPeriods(Counters(yearly, workdayYearly, monthly, workdayMonthly, weekly, workdayWeekly,
                                       daily, dayOfWeek, hourOfDay), releases[..i])
    {
      var release := releases[i];
      ghost var c := Counters(yearly, workdayYearly, monthly, workdayMonthly, weekly, workdayWeekly,
                              daily, dayOfWeek, hourOfDay);
      CountsStep(releases, i, c);
      YearStep(c, release);
      MonthStep(c, release);
      WeekStep(c, release);
      DayStep(c, release);
      DayNameStep(c, release);
      HourStep(c, release);
      var date := release.createdAt;
      var isWeekendDay := IsWeekend(date);

      var year := YearKey(date);
      yearly := Bump(yearly, year);
      if !isWeekendDay {
        workdayYearly := Bump(workdayYearly, year);
      }

      var month := MonthKey(date);
      monthly := Bump(monthly, month);
      if !isWeekendDay {
        workdayMonthly := Bump(workdayMonthly, month);
      }

      var week := WeekKey(date);
      weekly := Bump(weekly, week);
      if !isWeekendDay {
        workdayWeekly := Bump(workdayWeekly, week);
      }

      var day := DayKey(date);
      daily := Bump(daily, day);

      var dayName := DayName(date);
      dayOfWeek := Bump(dayOfWeek, dayName);

      var hour := HourKey(date);
      hourOfDay := Bump(hourOfDay, hour);
    }
    assert releases[..|releases|] == releases;
  }

  // ---------------------------------------------------------------------
  // Emitting the rows
  // ---------------------------------------------------------------------

  /** The row's place among all rows: its type and its period. */
  function RowKey(r: StatRow): (StatType, string)
  {
    (r.statType, r.period)
  }

  /** A row's value when it is of type `t`, zero otherwise. */
  function ValueIn(t: StatType): StatRow -> int
  {
    (r: StatRow) => if r.statType == t then r.value else 0
  }

  ghost predicate HasStat(stats: seq<StatRow>, t: StatType, p: string)
  {
    exists i :: 0 <= i < |stats| && stats[i].statType == t && stats[i].period == p
  }

  /** Every row is one entry of the counter of its type, and its type ranks below `n`. */
  ghost predicate RowsFrom(stats: seq<StatRow>, repo: string, counters: Counters, n: nat)
  {
    forall i :: 0 <= i < |stats| ==>
      && stats[i].repo == repo
      && stats[i].statType.Rank() < n
      && stats[i].period in counters.Get(stats[i].statType)
      && stats[i].value == counters.Get(stats[i].statType)[stats[i].period]
  }

  /**
   * `stats` holds the counters of the first `n` types by rank (the order
   * the source lists them in), one row per entry, and
   * nothing else; the values of each type add up to its counter's total.
   */
  ghost predicate EmittedSoFar(stats: seq<StatRow>, repo: string, counters: Counters, n: nat)
  {
    && RowsFrom(stats, repo, counters, n)
    && (forall t: StatType, p :: t.Rank() < n && p in counters.Get(t) ==> HasStat(stats, t, p))
    && DistinctKeys(stats, RowKey)
    && (forall t :: SumOver(stats, ValueIn(t)) == if t.Rank() < n then Total(counters.Get(t)) else 0)
  }

  /** `out` is `base` followed by one row of type `t` per pair of `entries`. */
  ghost predicate Appends(base: seq<StatRow>, out: seq<StatRow>, repo: string, t: StatType,
                          entries: seq<(string, nat)>)
  {
    && |out| == |base| + |entries|
    && out[..|base|] == base
    && forall k :: 0 <= k < |entries| ==> out[|base| + k] == StatRow(repo, t, entries[k].0, entries[k].1)
  }

  lemma EmittedNothing(repo: string, counters: Counters)
    ensures EmittedSoFar([], repo, counters, 0)
  {
  }

  /**
   * `Object.entries(counts).forEach(([period, count]) => stats.push({ repo,
   * stat_type, period, value: count }))`: appends one row per counter entry.
   */
  method PushEntries(stats: seq<StatRow>, repoName: string, counters: Counters,
                     ghost n: nat, statType: StatType)
    returns (out: seq<StatRow>)
    requires EmittedSoFar(stats, repoName, counters, n) && statType.Rank() == n
    ensures EmittedSoFar(out, repoName, counters, n + 1)
  {
    var entries := Entries(counters.Get(statType));
    out := AppendRows(stats, repoName, statType, entries);
    EmitStep(stats, out, repoName, counters, n, statType, entries);
  }

  /** The `forEach` of one counter's entries, each pushing one row. */
  method AppendRows(stats: seq<StatRow>, repoName: string, statType: StatType, entries: seq<(string, nat)>)
    returns (out: seq<StatRow>)
    ensures Appends(stats, out, repoName, statType, entries)
  {
    out := stats;
    for j := 0 to |entries|
      invariant Appends(stats, out, repoName, statType, entries[..j])
    {
      out := out + [StatRow(repoName, statType, entries[j].0, entries[j].1)];
      assert entries[..j + 1][j] == entries[j];
    }
    assert entries[..|entries|] == entries;
  }

  /** Appending the rows of a counter not yet listed lists it too. */
  lemma EmitStep(base: seq<StatRow>, out: seq<StatRow>, repo: string, counters: Counters,
                 n: nat, t: StatType, entries: seq<(string, nat)>)
    requires EmittedSoFar(base, repo, counters, n) && t.Rank() == n
    requires Lists(entries, counters.Get(t))
    requires Appends(base, out, repo, t, entries)
    ensures EmittedSoFar(out, repo, counters, n + 1)
  {
    EmitRowsFrom(base, out, repo, counters, n, t, entries);
    EmitCoverage(base, out, repo, counters, n, t, entries);
    EmitDistinct(base, out, repo, counters, n, t, entries);
    EmitSums(base, out, repo, counters, n, t, entries);
  }

  lemma EmitRowsFrom(base: seq<StatRow>, out: seq<StatRow>, repo: string, counters: Counters,
                     n: nat, t: StatType, entries: seq<(string, nat)>)
    requires RowsFrom(base, repo, counters, n) && t.Rank() == n
    requires Lists(entries, counters.Get(t))
    requires Appends(base, out, repo, t, entries)
    ensures RowsFrom(out, repo, counters, n + 1)
  {
    forall i | 0 <= i < |out|
      ensures out[i].repo == repo && out[i].statType.Rank() < n + 1
      ensures out[i].period in counters.Get(out[i].statType)
      ensures out[i].value == counters.Get(out[i].statType)[out[i].period]
    {
      if i < |base| {
        assert out[i] == out[..|base|][i] == base[i];
      } else {
        assert out[i] == StatRow(repo, t, entries[i - |base|].0, entries[i - |base|].1);
      }
    }
  }

  lemma EmitCoverage(base: seq<StatRow>, out: seq<StatRow>, repo: string, counters: Counters,
                     n: nat, t: StatType, entries: seq<(string, nat)>)
    requires forall u: StatType, p :: u.Rank() < n && p in counters.Get(u) ==> HasStat(base, u, p)
    requires t.Rank() == n
    requires Lists(entries, counters.Get(t))
    requires Appends(base, out, repo, t, entries)
    ensures forall u: StatType, p :: u.Rank() < n + 1 && p in counters.Get(u) ==> HasStat(out, u, p)
  {
    StatTypesDistinct();
    forall u: StatType, p | u.Rank() < n + 1 && p in counters.Get(u)
      ensures HasStat(out, u, p)
    {
      if u == t {
        var k :| 0 <= k < |entries| && entries[k].0 == p;
        assert out[|base| + k] == StatRow(repo, t, entries[k].0, entries[k].1);
      } else {
        var i :| 0 <= i < |base| && base[i].statType == u && base[i].period == p;
        assert out[i] == out[..|base|][i] == base[i];
      }
    }
  }

  lemma EmitDistinct(base: seq<StatRow>, out: seq<StatRow>, repo: string, counters: Counters,
                     n: nat, t: StatType, entries: seq<(string, nat)>)
    requires RowsFrom(base, repo, counters, n) && DistinctKeys(base, RowKey) && t.Rank() == n
    requires Lists(entries, counters.Get(t))
    requires Appends(base, out, repo, t, entries)
    ensures DistinctKeys(out, RowKey)
  {
    forall i, j | 0 <= i < j < |out|
      ensures RowKey(out[i]) != RowKey(out[j])
    {
      if j < |base| {
        assert out[i] == out[..|base|][i] == base[i];
        assert out[j] == out[..|base|][j] == base[j];
      } else if i < |base| {
        assert out[i] == out[..|base|][i] == base[i];
        var k := j - |base|;
        assert out[|base| + k] == StatRow(repo, t, entries[k].0, entries[k].1);
      } else {
        assert out[i].period == entries[i - |base|].0;
        assert out[j].period == entries[j - |base|].0;
      }
    }
  }

  /** The rows pushed for one counter add up to its total under their type, to nothing under another. */
  lemma PushedSums(pushed: seq<StatRow>, repo: string, t: StatType, entries: seq<(string, nat)>, counts: Tally)
    requires Lists(entries, counts)
    requires |pushed| == |entries|
    requires forall k :: 0 <= k < |pushed| ==> pushed[k] == StatRow(repo, t, entries[k].0, entries[k].1)
    ensures SumOver(pushed, ValueIn(t)) == Total(counts)
    ensures forall u :: u != t ==> SumOver(pushed, ValueIn(u)) == 0
  {
    SumOverPointwise(pushed, ValueIn(t), entries, CountValue);
    ListsTotal(entries, counts, CountValue);
    forall u | u != t
      ensures SumOver(pushed, ValueIn(u)) == 0
    {
      SumOverZero(pushed, ValueIn(u));
    }
  }

  lemma EmitSums(base: seq<StatRow>, out: seq<StatRow>, repo: string, counters: Counters,
                 n: nat, t: StatType, entries: seq<(string, nat)>)
    requires forall u :: SumOver(base, ValueIn(u)) == if u.Rank() < n then Total(counters.Get(u)) else 0
    requires t.Rank() == n
    requires Lists(entries, counters.Get(t))
    requires Appends(base, out, repo, t, entries)
    ensures forall u :: SumOver(out, ValueIn(u)) == if u.Rank() < n + 1 then Total(counters.Get(u)) else 0
  {
    var pushed := out[|base|..];
    AppendsPushed(base, out, repo, t, entries, pushed);
    PushedSums(pushed, repo, t, entries, counters.Get(t));
    forall u
      ensures SumOver(out, ValueIn(u)) == if u.Rank() < n + 1 then Total(counters.Get(u)) else 0
    {
      EmitSumOne(base, pushed, out, counters, t, u);
    }
  }

  /** The rows `Appends` adds after `base`. */
  lemma AppendsPushed(base: seq<StatRow>, out: seq<StatRow>, repo: string, t: StatType,
                      entries: seq<(string, nat)>, pushed: seq<StatRow>)
    requires Appends(base, out, repo, t, entries) && pushed == out[|base|..]
    ensures out == base + pushed && |pushed| == |entries|
    ensures forall k :: 0 <= k < |pushed| ==> pushed[k] == StatRow(repo, t, entries[k].0, entries[k].1)
  {
    assert out == out[..|base|] + pushed;
    forall k | 0 <= k < |pushed|
      ensures pushed[k] == StatRow(repo, t, entries[k].0, entries[k].1)
    {
      assert pushed[k] == out[|base| + k];
    }
  }

  /** `EmitSums` for the rows of one type. */
  lemma EmitSumOne(base: seq<StatRow>, pushed: seq<StatRow>, out: seq<StatRow>, counters: Counters,
                   t: StatType, u: StatType)
    requires out == base + pushed
    requires SumOver(base, ValueIn(u)) == if u.Rank() < t.Rank() then Total(counters.Get(u)) else 0
    requires SumOver(pushed, ValueIn(t)) == Total(counters.Get(t))
    requires u != t ==> SumOver(pushed, ValueIn(u)) == 0
    ensures SumOver(out, ValueIn(u)) == if u.Rank() < t.Rank() + 1 then Total(counters.Get(u)) else 0
  {
    SumOverConcat(base, pushed, ValueIn(u));
    RankStep(u, t);
  }

  /** The types ranked below the next one are those ranked below `t` and `t` itself. */
  lemma RankStep(u: StatType, t: StatType)
    ensures u.Rank() < t.Rank() + 1 <==> u.Rank() < t.Rank() || u == t
  {
    StatTypesDistinct();
  }

  /** The nine `Object.entries(...).forEach(... stats.push ...)` loops, in the source's order. */
  method EmitRows(repoName: string, counters: Counters) returns (stats: seq<StatRow>)
    ensures EmittedSoFar(stats, repoName, counters, 9)
  {
    stats := [];
    ghost var listed := 0;
    EmittedNothing(repoName, counters);
    stats := PushThree(stats, repoName, counters, listed, Yearly, WorkdayYearly, Monthly);
    listed := listed + 3;
    stats := PushThree(stats, repoName, counters, listed, WorkdayMonthly, Weekly, WorkdayWeekly);
    listed := listed + 3;
    stats := PushThree(stats, repoName, counters, listed, Daily, DayOfWeek, HourOfDay);
    listed := listed + 3;
  }

  /** Three consecutive blocks of `EmitRows`. */
  method PushThree(stats: seq<StatRow>, repoName: string, counters: Counters,
                   ghost n: nat, first: StatType, second: StatType, third: StatType)
    returns (out: seq<StatRow>)
    requires EmittedSoFar(stats, repoName, counters, n)
    requires first.Rank() == n && second.Rank() == n + 1 && third.Rank() == n + 2
    ensures EmittedSoFar(out, repoName, counters, n + 3)
  {
    out := PushEntries(stats, repoName, counters, n, first);
    out := PushEntries(out, repoName, counters, n + 1, second);
    out := PushEntries(out, repoName, counters, n + 2, third);
  }

  // ---------------------------------------------------------------------
  // Sorting
  // ---------------------------------------------------------------------

  /**
   * The comparator of the final sort: rows of different types by rank,
   * rows of one type by period (`localeCompare`, as code-unit order).
   */
  predicate RowLe(a: StatRow, b: StatRow)
  {
    if a.statType != b.statType then a.statType.Rank() < b.statType.Rank() else LexLe(a.period, b.period)
  }

  lemma RowLeOrders()
    ensures TotalPreorder(RowLe)
  {
    StatTypesDistinct();
    forall a: StatRow, b: StatRow
      ensures RowLe(a, b) || RowLe(b, a)
    {
      LexLeTotal(a.period, b.period);
    }
    forall a: StatRow, b: StatRow, c: StatRow | RowLe(a, b) && RowLe(b, c)
      ensures RowLe(a, c)
    {
      if a.statType == b.statType == c.statType {
        LexLeTransitive(a.period, b.period, c.period);
      }
    }
  }

  /** Reordering the rows keeps them a faithful listing of the counters. */
  lemma EmittedPermutation(stats: seq<StatRow>, sorted: seq<StatRow>, repo: string,
                           counters: Counters, n: nat)
    requires EmittedSoFar(stats, repo, counters, n)
    requires multiset(stats) == multiset(sorted)
    ensures EmittedSoFar(sorted, repo, counters, n)
  {
    DistinctKeysPermutation(stats, sorted, RowKey);
    forall i | 0 <= i < |sorted|
      ensures sorted[i] in multiset(stats)
    {
    }
    forall t: StatType, p | t.Rank() < n && p in counters.Get(t)
      ensures HasStat(sorted, t, p)
    {
      var i :| 0 <= i < |stats| && stats[i].statType == t && stats[i].period == p;
      assert stats[i] in multiset(sorted);
    }
    forall t
      ensures SumOver(sorted, ValueIn(t)) == SumOver(stats, ValueIn(t))
    {
      SumOverPermutation(stats, sorted, ValueIn(t));
    }
  }

  // ---------------------------------------------------------------------
  // The whole aggregator
  // ---------------------------------------------------------------------

  /**
   * `stats` lists, for the repository `repo`, every period key of every
   * type once, with the number of releases the type counts under that key.
   */
  ghost predicate Summarises(stats: seq<StatRow>, rs: seq<GitHubRelease>, repo: string)
  {
    && (forall i :: 0 <= i < |stats| ==> stats[i].repo == repo)
    && (forall i :: 0 <= i < |stats| ==>
          var t := stats[i].statType;
          stats[i].period in KeySet(Counted(rs, t), KeyOf(t)) &&
          stats[i].value == CountWhere(Counted(rs, t), KeyOf(t), stats[i].period))
    && (forall t, p :: p in KeySet(Counted(rs, t), KeyOf(t)) ==> HasStat(stats, t, p))
    && DistinctKeys(stats, RowKey)
  }

  /** Once all nine counters are listed, the rows summarise the releases. */
  lemma EmittedSummarises(stats: seq<StatRow>, rs: seq<GitHubRelease>, repo: string, counters: Counters)
    requires CountsPeriods(counters, rs)
    requires EmittedSoFar(stats, repo, counters, 9)
    ensures Summarises(stats, rs, repo)
    ensures forall i :: 0 <= i < |stats| ==> stats[i].value >= 1
    ensures forall t :: SumOver(stats, ValueIn(t)) == |Counted(rs, t)|
  {
    StatTypesDistinct();
    forall i | 0 <= i < |stats|
      ensures var t := stats[i].statType;
              stats[i].period in KeySet(Counted(rs, t), KeyOf(t)) &&
              stats[i].value == CountWhere(Counted(rs, t), KeyOf(t), stats[i].period) >= 1
    {
      BucketCounts(rs, stats[i].statType);
    }
    forall t, p | p in KeySet(Counted(rs, t), KeyOf(t))
      ensures HasStat(stats, t, p)
    {
      BucketCounts(rs, t);
    }
    forall t
      ensures SumOver(stats, ValueIn(t)) == |Counted(rs, t)|
    {
      BucketCounts(rs, t);
    }
  }

  /** A key's count over the weekday releases is at most its count over all of them. */
  lemma {:induction false} WorkdaysCountBound(rs: seq<GitHubRelease>, key: GitHubRelease -> string, p: string)
    ensures CountWhere(Workdays(rs), key, p) <= CountWhere(rs, key, p)
    decreases |rs|
  {
    if rs != [] {
      var front, r := rs[..|rs| - 1], rs[|rs| - 1];
      WorkdaysCountBound(front, key, p);
      if !IsWeekend(r.createdAt) {
        CountWhereSnoc(Workdays(front), r, key);
      }
    }
  }

  /** A period counted over the weekday releases is counted over all of them, at least as often. */
  lemma WorkdayCountWithin(rs: seq<GitHubRelease>, key: GitHubRelease -> string, p: string)
    requires p in KeySet(Workdays(rs), key)
    ensures p in KeySet(rs, key)
    ensures CountWhere(Workdays(rs), key, p) <= CountWhere(rs, key, p)
  {
    CountWhereOccurs(Workdays(rs), key);
    CountWhereOccurs(rs, key);
    WorkdaysCountBound(rs, key, p);
  }

  /** A workday type counts the weekday releases by its unrestricted type's key. */
  lemma UnrestrictedShares(rs: seq<GitHubRelease>, t: StatType)
    requires t.IsWorkday()
    ensures Counted(rs, t) == Workdays(rs) && Counted(rs, t.Unrestricted()) == rs
    ensures !t.Unrestricted().IsWorkday() && KeyOf(t.Unrestricted()) == KeyOf(t)
  {
  }

  /** The row of the unrestricted type that matches workday row `i`. */
  lemma WorkdayRowWithin(stats: seq<StatRow>, rs: seq<GitHubRelease>, repo: string, i: nat)
    requires Summarises(stats, rs, repo)
    requires i < |stats| && stats[i].statType.IsWorkday()
    ensures exists j :: 0 <= j < |stats| && stats[j].statType == stats[i].statType.Unrestricted() &&
                        stats[j].period == stats[i].period && stats[j].value >= stats[i].value
  {
    var t, p := stats[i].statType, stats[i].period;
    var u := t.Unrestricted();
    UnrestrictedShares(rs, t);
    WorkdayCountWithin(rs, KeyOf(t), p);
    assert HasStat(stats, u, p);
    var j :| 0 <= j < |stats| && stats[j].statType == u && stats[j].period == p;
    assert stats[j].value >= stats[i].value;
  }

  /**
   * Every workday row has a row of its unrestricted type for the same
   * period, whose value is at least the workday row's.
   */
  lemma WorkdayRowsWithin(stats: seq<StatRow>, rs: seq<GitHubRelease>, repo: string)
    requires Summarises(stats, rs, repo)
    ensures forall i :: 0 <= i < |stats| && stats[i].statType.IsWorkday() ==>
              exists j :: 0 <= j < |stats| && stats[j].statType == stats[i].statType.Unrestricted() &&
                          stats[j].period == stats[i].period && stats[j].value >= stats[i].value
  {
    forall i | 0 <= i < |stats| && stats[i].statType.IsWorkday()
      ensures exists j :: 0 <= j < |stats| && stats[j].statType == stats[i].statType.Unrestricted() &&
                          stats[j].period == stats[i].period && stats[j].value >= stats[i].value
    {
      WorkdayRowWithin(stats, rs, repo, i);
    }
  }

  /** Rows in comparator order come in non-decreasing rank. */
  lemma SortedRanks(stats: seq<StatRow>)
    requires SortedBy(stats, RowLe)
    ensures forall i, j :: 0 <= i < j < |stats| ==> stats[i].statType.Rank() <= stats[j].statType.Rank()
  {
    forall i, j | 0 <= i < j < |stats|
      ensures stats[i].statType.Rank() <= stats[j].statType.Rank()
    {
      assert RowLe(stats[i], stats[j]);
    }
  }

  /**
   * What `analyzeReleases` returns for `rs`: one row per (type, period)
   * counter, each row's value the number of counted releases in its period
   * (so at least one), the values of each type adding up to the number of
   * releases that type counts, and the rows sorted by type rank and then
   * by period.
   */
  ghost predicate Reports(stats: seq<StatRow>, rs: seq<GitHubRelease>, repo: string)
  {
    && Summarises(stats, rs, repo)
    && (forall i :: 0 <= i < |stats| ==> stats[i].value >= 1)
    && (forall t :: SumOver(stats, ValueIn(t)) == |Counted(rs, t)|)
    && SortedBy(stats, RowLe)
    && (forall i, j :: 0 <= i < j < |stats| ==> stats[i].statType.Rank() <= stats[j].statType.Rank())
  }

  /** The final `stats.sort(...)` with the rank-then-period comparator. */
  method SortRows(emitted: seq<StatRow>, ghost releases: seq<GitHubRelease>, repoName: string,
                  ghost counters: Counters)
    returns (stats: seq<StatRow>)
    requires CountsPeriods(counters, releases)
    requires EmittedSoFar(emitted, repoName, counters, 9)
    ensures Reports(stats, releases, repoName)
  {
    RowLeOrders();
    stats := Sorted(emitted, RowLe);
    EmittedPermutation(emitted, stats, repoName, counters, 9);
    EmittedSummarises(stats, releases, repoName, counters);
    SortedRanks(stats);
  }

  /** The nine emission blocks followed by the final sort, given the finished counters. */
  method EmitSorted(ghost releases: seq<GitHubRelease>, repoName: string, counters: Counters)
    returns (stats: seq<StatRow>)
    requires CountsPeriods(counters, releases)
    ensures Reports(stats, releases, repoName)
  {
    var emitted := EmitRows(repoName, counters);
    stats := SortRows(emitted, releases, repoName, counters);
  }

  /**
   * `analyzeReleases`: the rows of every counter, sorted by type rank and
   * then by period. The values of each type add up to the number of
   * releases it counts: all of them, or the weekday ones for a workday type.
   */
  method AnalyzeReleases(releases: seq<GitHubRelease>, repoName: string) returns (stats: seq<StatRow>)
    ensures Reports(stats, releases, repoName)
  {
    var yearly, monthly, weekly, daily, dayOfWeek, hourOfDay, workdayYearly, workdayMonthly, workdayWeekly :=
      CountPeriods(releases);
    var counters := Counters(yearly, workdayYearly, monthly, workdayMonthly, weekly, workdayWeekly,
                             daily, dayOfWeek, hourOfDay);
    stats := EmitSorted(releases, repoName, counters);
  }

}
