# Release statistics

A Dafny model of the release-statistics engine of a small GitHub release
dashboard. The model covers two files.

- **Dashboard statistics** (`dashboard/src/utils/releaseStats.ts`):
  - `getReleaseType` sorts a release tag into one of four Korean labels: unknown, major, minor, patch.
  - `getWorkHour` sorts an hour of the day into one of eleven buckets.
  - `isWeekend` is true on Saturday and Sunday.
  - `calculateStats` produces the summary counters.
  - `getTopAuthors` lists the most active authors.
  - `getReleaseTrend` builds the monthly and cumulative trend.
  - `getVersionUpgradePattern` reports the gaps between consecutive releases by kind.
- **Server aggregator** (`server/src/analyzeReleases.ts`):
  - `analyzeReleases` fills nine period counters in one pass over a repository's releases.
  - It turns every counter into one `(repo, stat_type, period, value)` row.
  - It sorts the rows by a fixed rank of `stat_type`, then by period.

Modules, one file each:

| module | file | what it holds |
|---|---|---|
| `Collections` | `collections.dfy` | sums, the key/value listing `Object.entries` yields, distinctness, and one in-place insertion sort on an `array` behind every `sort` call |
| `Text` | `text.dfy` | decimal digits, `padStart`, `split`/`join`, and the string order used for period keys |
| `Tallies` | `tallies.dfy` | the counter dictionaries filled by `m[k] = (m[k] \|\| 0) + 1` |
| `Calendar` | `calendar.dfy` | a decoded timestamp, the period keys built from it, and whole-day differences |
| `ReleaseTags` | `release_tags.dfy` | `getReleaseType` and `getWorkHour` |
| `ReleaseStats` | `release_stats.dfy` | the four dashboard statistics |
| `AnalyzeReleases` | `analyze_releases.dfy` | the server aggregator |
| `PlainObjects` | `plain_objects.dfy` | the author dictionaries as the code builds them on `{}`, where logins spelled like inherited methods misbehave (see Findings) |

The code is pure in some places and loop-based in others, and the model
follows that split:
- **Pure functions.** The classifiers, the key builders and the reference definitions are functions.
- **Loops.** Each `forEach` that fills a dictionary or pushes onto an array is a method with a loop.
  - Each such method is proved against a ghost predicate that says what the dictionary or array holds after the first `i` elements.
  - The final results are tied to counts over the input: `CountWhere`, `KeySet`, `Total`.
- **Sorting.** Every `Array.prototype.sort` becomes one in-place sort on an `array` (`Collections.SortBy`). It is proved sorted by the comparator and a permutation of its input.

## Model

| member | source | states |
|---|---|---|
| ReleaseTags.ReleaseType | dashboard/src/utils/releaseStats.ts:13-36 | `getReleaseType`, no contract of its own: empty tag unknown; a tag with '@' by its last segment (unknown when empty); else by the tag without one leading 'v'. Its properties are the lemmas `ScopedTag`, `PlainTag`, `OneLeadingV`, `VersionTags`, `ScopedVersionTag`, `ReleaseTypeEdges` and `PreReleaseSuffix` below |
| ReleaseTags.ClassifyVersion | dashboard/src/utils/releaseStats.ts:21-25 | the NaN tests on the first three '.'-pieces, no contract of its own; `ClassifyByDepth` states it as the number of leading numeric pieces |
| ReleaseTags.LastSegment | dashboard/src/utils/releaseStats.ts:18 | `split('@').pop()` is the text after the last '@': a suffix of the tag without '@', preceded by '@' unless it is the whole tag, and the whole tag when it has no '@' |
| ReleaseTags.LabelsDistinct | dashboard/src/utils/releaseStats.ts:13-36 | the four labels `getReleaseType` can return are pairwise different, so a label identifies one kind |
| ReleaseTags.NumericPrefix | dashboard/src/utils/releaseStats.ts:30-35 | the number of leading split pieces that are numbers: every piece before it is numeric, and the piece at it (if any) is not |
| ReleaseTags.StripV | dashboard/src/utils/releaseStats.ts:29 | `replace(/^v/, '')` drops exactly one leading 'v' and leaves any other tag unchanged |
| ReleaseTags.ClassifyByDepth | dashboard/src/utils/releaseStats.ts:30-35 | the kind of a version is decided only by how many leading '.'-components are numeric (0 unknown, 1 major, 2 minor, 3 or more patch) |
| ReleaseTags.ExtraComponentsIgnored | dashboard/src/utils/releaseStats.ts:30-35 | once there are three components, appending more changes nothing |
| ReleaseTags.ScopedTag | dashboard/src/utils/releaseStats.ts:17-25 | a tag holding '@' is classified by the text after its last '@' alone, without removing a 'v'; an empty remainder is unknown |
| ReleaseTags.PlainTag | dashboard/src/utils/releaseStats.ts:28-35 | for every tag `t` without '@', `"v" + t` is classified as the version `t` (one 'v' removed, whatever `t` starts with); a non-empty `t` not starting with 'v' is itself classified as `t` |
| ReleaseTags.OneLeadingV | dashboard/src/utils/releaseStats.ts:29 | `/^v/` removes only one 'v': "v1" is major, "vv1" is unknown |
| ReleaseTags.DottedDigits | dashboard/src/utils/releaseStats.ts:30-35 | one, two and three digit strings joined by '.' are major, minor and patch, whatever their magnitudes |
| ReleaseTags.VersionTags | dashboard/src/utils/releaseStats.ts:28-35 | `vX`, `vX.Y`, `X.Y.Z` and `vX.Y.Z` with digit components are major, minor, patch and patch |
| ReleaseTags.ScopedVersionTag | dashboard/src/utils/releaseStats.ts:17-25 | `scope@X.Y.Z` is a patch version whatever the scope |
| ReleaseTags.ReleaseTypeEdges | dashboard/src/utils/releaseStats.ts:13-36 | the empty tag and a tag ending in '@' are unknown; a bare "v" is major, because `Number('')` is 0 |
| ReleaseTags.PreReleaseVersion | dashboard/src/utils/releaseStats.ts:30-35 | `X.Y.Z-suffix` is a minor version, because its third component is not a number |
| ReleaseTags.PreReleaseSuffix | dashboard/src/utils/releaseStats.ts:28-35 | the same holds with a leading 'v' |
| ReleaseTags.WorkHour | dashboard/src/utils/releaseStats.ts:38-42 | the result is always one of the eleven buckets |
| ReleaseTags.HourBucketsDistinct | dashboard/src/utils/releaseStats.ts:5-6 | the eleven bucket names are pairwise different |
| ReleaseTags.WorkHourBucket | dashboard/src/utils/releaseStats.ts:38-42 | below 9 gives exactly the "before 09" bucket and 18 or above exactly the "after 18" bucket (both directions); an hour h in between gets the bucket "hh-kk" whose numbers read back as h and h + 1 |
| ReleaseTags.WorkHourSpelled | dashboard/src/utils/releaseStats.ts:5 | `WORK_HOURS[h - 9]` is h and h + 1 written in two digits around '-' |
| Calendar.IsWeekend | server/src/analyzeReleases.ts:15-18 | `day() === 0 \|\| day() === 6`, no contract of its own; `WorkdaysMembers`, `WorkdaysCount` and `ReleaseStats.OnWeekend` state the filters built on it |
| Calendar.DayName | server/src/analyzeReleases.ts:64 | `format('dddd')` is one of the seven English day names, "Saturday" or "Sunday" exactly on a weekend |
| Calendar.YearKey | server/src/analyzeReleases.ts:39 | `format('YYYY')`, no contract of its own; `YearKeyFormat` states its format |
| Calendar.MonthKey | dashboard/src/utils/releaseStats.ts:96 | `format('YYYY-MM')`, no contract of its own; `DayKeyFormat` states its format and `MonthKeyOrder` its order |
| Calendar.DayKey | server/src/analyzeReleases.ts:60 | `format('YYYY-MM-DD')`, no contract of its own; `DayKeyFormat` states its format |
| Calendar.WeekKey | server/src/analyzeReleases.ts:53 | the week key, no contract of its own; `WeekKeyFormat` states its format |
| Calendar.HourKey | server/src/analyzeReleases.ts:68 | `format('HH')`, no contract of its own; `HourKeyFormat` states its format |
| Calendar.YearKeyFormat | server/src/analyzeReleases.ts:39 | the year key is four digits that read back as the year |
| Calendar.HourKeyFormat | server/src/analyzeReleases.ts:68 | the hour key is two digits ("00" to "23") that read back as the hour |
| Calendar.WeekDigits | server/src/analyzeReleases.ts:53 | padding the week number to width 2 leaves two-digit numbers unchanged and prefixes one-digit numbers with '0' |
| Calendar.WeekKeyFormat | server/src/analyzeReleases.ts:53 | the week key is the year key, "-W", and two digits that read back as the week number |
| Calendar.DayKeyFormat | server/src/analyzeReleases.ts:46-60 | the month key is the year key, '-' and two digits that read back as the month; the day key is the month key, '-' and two digits that read back as the day |
| Calendar.MonthKeyOrder | dashboard/src/utils/releaseStats.ts:148-154 | month keys compare as strings exactly as (year, month) compare; two keys are equal exactly when year and month are |
| Calendar.TruncDiv | dashboard/src/utils/releaseStats.ts:180 | division rounded toward zero, stated by the bounds that bracket it, for either sign |
| Calendar.DayDiff | dashboard/src/utils/releaseStats.ts:180 | `diff(..., 'day')` is not negative from an earlier time to a later one, and not positive the other way round |
| Text.Digits | server/src/analyzeReleases.ts:53 | `toString()` of a natural number is a non-empty string of digits |
| Text.PadStart | server/src/analyzeReleases.ts:53 | `padStart` has length max(width, \|s\|), ends with `s`, and is fill characters before it |
| Text.ValueOfDigits | server/src/analyzeReleases.ts:53 | reading back a printed number gives the number |
| Text.PaddedValue | server/src/analyzeReleases.ts:53 | a number below 10^width padded with zeros is exactly width digits that read back as the number |
| Text.LexLeDigits | server/src/analyzeReleases.ts:178 | on digit strings of one length, string order is numeric order |
| Text.PaddedOrder | server/src/analyzeReleases.ts:178 | zero-padded numbers of one width sort in numeric order, and are equal exactly when the numbers are |
| Text.LexLeTotal | server/src/analyzeReleases.ts:178 | the period order used for `localeCompare` is total |
| Text.LexLeTransitive | server/src/analyzeReleases.ts:178 | it is transitive |
| Text.LexLeAntisymmetric | server/src/analyzeReleases.ts:178 | it is antisymmetric |
| Text.Split | dashboard/src/utils/releaseStats.ts:21 | `split` always yields at least one piece |
| Text.SplitJoin | dashboard/src/utils/releaseStats.ts:21 | joining the pieces of a split with the separator gives back the string |
| Text.SplitPieces | dashboard/src/utils/releaseStats.ts:21 | no piece contains the separator |
| Text.SplitWithoutSeparator | dashboard/src/utils/releaseStats.ts:18 | a string without the separator splits into itself alone |
| Text.SplitAround | dashboard/src/utils/releaseStats.ts:18 | splitting `a + sep + b` gives the pieces of `a` followed by those of `b` |
| Text.SplitLast | dashboard/src/utils/releaseStats.ts:18 | the last piece of a split is what follows the last separator: a suffix without the separator, preceded by one unless it is the whole string, and the whole string when there is one piece |
| Tallies.Bump | dashboard/src/utils/releaseStats.ts:76 | `m[k] = (m[k] \|\| 0) + 1` with numeric counters, no contract of its own; `BumpTotal` and `TallyByCounts` state what it does to the counters, and `PlainObjects.OrdinaryKeysCount` that it agrees with the code for every key that names no inherited method |
| Tallies.BumpTotal | dashboard/src/utils/releaseStats.ts:76 | `m[k] = (m[k] \|\| 0) + 1` adds exactly one to the sum of the counters |
| Tallies.TallyByCounts | dashboard/src/utils/releaseStats.ts:73-105 | bumping counters element by element leaves the initial keys plus the keys seen, each counter equal to its initial value plus the number of elements with that key |
| Tallies.TallyByTotal | dashboard/src/utils/releaseStats.ts:73-105 | the counters grow by exactly the number of elements counted |
| Tallies.TallyByPositive | server/src/analyzeReleases.ts:34-70 | counting from an empty dictionary, every counter is at least one |
| Tallies.CountWhereOccurs | dashboard/src/utils/releaseStats.ts:147-150 | a key has a positive count exactly when some element has it |
| Tallies.CountAll | dashboard/src/utils/releaseStats.ts:147-150 | the counting `forEach` from `{}` counts the elements by key, its counters sum to the number of elements, and each is at least one |
| Collections.Entries | dashboard/src/utils/releaseStats.ts:152 | `Object.entries` lists every key of the dictionary exactly once, with its value |
| Collections.ListsTotal | dashboard/src/utils/releaseStats.ts:152 | the values of the listing add up to the sum over the dictionary |
| Collections.SortBy | server/src/analyzeReleases.ts:163-179 | the in-place sort leaves the array ordered by the comparator and a permutation of what it held |
| Collections.Sorted | dashboard/src/utils/releaseStats.ts:136 | a sorted copy is ordered by the comparator and a permutation of the input |
| Collections.SumOverPermutation | server/src/analyzeReleases.ts:163 | reordering does not change a sum |
| Collections.DistinctKeysPermutation | server/src/analyzeReleases.ts:163 | reordering keeps keys distinct |
| ReleaseStats.OnWeekend | dashboard/src/utils/releaseStats.ts:70 | the filter keeps exactly the releases on the requested side of the weekend test, and is no longer than its input |
| ReleaseStats.WeekdayWeekendPartition | dashboard/src/utils/releaseStats.ts:108 | weekday and weekend releases partition the input: their numbers add up to its length |
| ReleaseStats.KoreanDayName | dashboard/src/utils/releaseStats.ts:79-87 | `weekdayMap[weekday] \|\| weekday`, no contract of its own; `WeekdayKeyKorean` states the name a weekday release gets |
| ReleaseStats.TypeKey | dashboard/src/utils/releaseStats.ts:75-76 | the key of `releasesByType`: the label of the tag's kind; `CalculateStats` states the counts by it |
| ReleaseStats.HourBucketKey | dashboard/src/utils/releaseStats.ts:91-93 | the key of `releasesByHour`: the bucket of the hour; `HourKeysKnown` states it is one of the eleven |
| ReleaseStats.WeekdayKeyKorean | dashboard/src/utils/releaseStats.ts:79-88 | a weekday release is counted under the Korean name of its day, Monday first |
| ReleaseStats.Zeros | dashboard/src/utils/releaseStats.ts:57-67 | the initial counters hold exactly the given keys, all zero |
| ReleaseStats.CalculateStats | dashboard/src/utils/releaseStats.ts:44-111 | see the list below the table |
| ReleaseStats.TalliedStep | dashboard/src/utils/releaseStats.ts:73-105 | one turn of the loop counts one more weekday release in every counter |
| ReleaseStats.TalliedCounts | dashboard/src/utils/releaseStats.ts:73-105 | after the loop each dictionary counts the weekday releases by its key; the weekday and hour dictionaries keep exactly their initial keys |
| ReleaseStats.TalliedTotals | dashboard/src/utils/releaseStats.ts:73-105 | after the loop every dictionary sums to the number of weekday releases |
| ReleaseStats.WeekdayKeysKnown | dashboard/src/utils/releaseStats.ts:87-88 | weekday releases are only ever counted under the five weekday names |
| ReleaseStats.HourKeysKnown | dashboard/src/utils/releaseStats.ts:91-93 | every release is counted under one of the eleven hour buckets |
| ReleaseStats.RoundDiv | dashboard/src/utils/releaseStats.ts:134 | `Math.round(s / d)` is the integer nearest to s / d, halves rounded up |
| ReleaseStats.RoundDivNonNegative | dashboard/src/utils/releaseStats.ts:195 | the rounded mean of a non-negative sum is non-negative |
| ReleaseStats.SliceEnd | dashboard/src/utils/releaseStats.ts:137 | where `slice(0, limit)` stops, within the list: a non-negative limit keeps `limit` elements or all of them when fewer; a negative one drops the last `-limit`, or all when fewer |
| ReleaseStats.AuthorDates | dashboard/src/utils/releaseStats.ts:122 | an author has one pushed date per weekday release |
| ReleaseStats.GapSum | dashboard/src/utils/releaseStats.ts:129-132 | the `reduce` adding the whole-day gaps between consecutive dates, no contract of its own; `GapSumSpan` bounds it |
| ReleaseStats.AvgGap | dashboard/src/utils/releaseStats.ts:128-134 | the rounded mean gap, 0 for fewer than two dates, no contract of its own; `GapSumSpan` proves it non-negative for dates in order |
| ReleaseStats.GapSumSpan | dashboard/src/utils/releaseStats.ts:127-133 | for times in order, the summed whole-day gaps are non-negative and fit in the span from the first time to the last, so the mean gap is non-negative |
| ReleaseStats.GetTopAuthors | dashboard/src/utils/releaseStats.ts:113-138 | see the list below the table |
| ReleaseStats.MoreReleases | dashboard/src/utils/releaseStats.ts:136 | the comparator `b.count - a.count` read as "a may come first"; `TopCut` states what sorting by it gives |
| ReleaseStats.TopOfSorted | dashboard/src/utils/releaseStats.ts:136-137 | cutting the sorted per-author rows gives the top authors as `TopAuthors` states them |
| ReleaseStats.GatherAuthors | dashboard/src/utils/releaseStats.ts:117-123 | afterwards each author of a weekday release has its count and its publication times in input order, and no one else has an entry |
| ReleaseStats.GatheredSnoc | dashboard/src/utils/releaseStats.ts:118-122 | creating the entry if needed, then `count++` and `dates.push`, gathers one more release |
| ReleaseStats.GatheredStep | dashboard/src/utils/releaseStats.ts:118-122 | the same, for release `i` of the loop |
| ReleaseStats.AuthorRows | dashboard/src/utils/releaseStats.ts:125-135 | one row per author, authors distinct, each the author's count and rounded mean gap |
| ReleaseStats.RowsOfEntries | dashboard/src/utils/releaseStats.ts:125-135 | rows made from the listed entries are exactly the authors' rows |
| ReleaseStats.PermutationRows | dashboard/src/utils/releaseStats.ts:136 | sorting keeps every row the author's row, and keeps every author present |
| ReleaseStats.TopCut | dashboard/src/utils/releaseStats.ts:136-137 | a prefix of the rows sorted by count has non-increasing counts and distinct authors, and no author left out has more releases than one shown |
| ReleaseStats.EarlierDate | dashboard/src/utils/releaseStats.ts:154 | the comparator `a.date.localeCompare(b.date)`; `EarlierDateOrders` proves it a total preorder |
| ReleaseStats.EarlierDateOrders | dashboard/src/utils/releaseStats.ts:154 | the month comparator is a total preorder |
| ReleaseStats.GetReleaseTrend | dashboard/src/utils/releaseStats.ts:140-163 | see the list below the table |
| ReleaseStats.MonthlyTrend | dashboard/src/utils/releaseStats.ts:144-154 | one point per month that has a weekday release, with that month's count (at least one); months distinct and ascending; counts summing to the number of weekday releases |
| ReleaseStats.TrendPoints | dashboard/src/utils/releaseStats.ts:152-153 | one point per dictionary key carrying its counter, summing to the dictionary's total |
| ReleaseStats.PointsTabulate | dashboard/src/utils/releaseStats.ts:152-153 | points made from the listed entries tabulate the dictionary |
| ReleaseStats.PointsTotal | dashboard/src/utils/releaseStats.ts:152-153 | their counts sum to the dictionary's total |
| ReleaseStats.TabulatesPermutation | dashboard/src/utils/releaseStats.ts:154 | sorting the points keeps them a table of the same counters |
| ReleaseStats.Cumulative | dashboard/src/utils/releaseStats.ts:156-160 | same length and dates as `monthly`; point i carries the sum of the first i + 1 monthly counts; strictly increasing when every monthly count is positive |
| ReleaseStats.RunningTotalsStep | dashboard/src/utils/releaseStats.ts:157-158 | pushing `lastCount + curr.count` extends the running totals by one month |
| ReleaseStats.IncreasingSnoc | dashboard/src/utils/releaseStats.ts:157-158 | a count above the last keeps the series increasing |
| ReleaseStats.PublishedNoLater | dashboard/src/utils/releaseStats.ts:171 | the comparator on `unix()`; `PublishedNoLaterOrders` proves it a total preorder |
| ReleaseStats.PublishedNoLaterOrders | dashboard/src/utils/releaseStats.ts:171 | the chronological comparator is a total preorder |
| ReleaseStats.Leading | dashboard/src/utils/releaseStats.ts:176-189 | the releases that have a successor: all but the last, in order |
| ReleaseStats.GapsCount | dashboard/src/utils/releaseStats.ts:176-189 | after n releases, a kind holds one gap per release of that kind among the first n - 1 |
| ReleaseStats.GapDaysCount | dashboard/src/utils/releaseStats.ts:176-189 | a kind gets one gap for each release of that kind that has a successor |
| ReleaseStats.GapKinds | dashboard/src/utils/releaseStats.ts:176-189 | a kind has gaps exactly when some release of that kind has a successor |
| ReleaseStats.GapFiledUnderEarlier | dashboard/src/utils/releaseStats.ts:178-187 | the gap between two releases is filed under the earlier release's kind, and the later one's kind gets nothing from it |
| ReleaseStats.DescribedKinds | dashboard/src/utils/releaseStats.ts:191-197 | the kinds shown are the kinds of releases that have a successor, each with the number of such releases |
| ReleaseStats.GetVersionUpgradePattern | dashboard/src/utils/releaseStats.ts:165-198 | see the list below the table |
| ReleaseStats.UpgradePatterns | dashboard/src/utils/releaseStats.ts:173-197 | over releases in chronological order: the gap rows, most gaps first, means non-negative, counts summing to one less than the number of releases |
| ReleaseStats.GatherPatterns | dashboard/src/utils/releaseStats.ts:176-189 | afterwards every kind holds the count and the days of the gaps that start at a release of that kind |
| ReleaseStats.PatternedFirst | dashboard/src/utils/releaseStats.ts:174-178 | the first release files nothing, because there is no `lastRelease` yet |
| ReleaseStats.PatternedStep | dashboard/src/utils/releaseStats.ts:178-188 | every later release files the gap from the previous one under the previous one's kind |
| ReleaseStats.FiledTotal | dashboard/src/utils/releaseStats.ts:182-186 | filing one gap adds one to the total count |
| ReleaseStats.PatternRows | dashboard/src/utils/releaseStats.ts:191-196 | one row per kind with gaps, each that kind's count and rounded mean, counts summing to the number of gaps |
| ReleaseStats.EntriesHaveDays | dashboard/src/utils/releaseStats.ts:195 | no kind listed has an empty list of days, so the mean never divides by zero |
| ReleaseStats.RowsDescribe | dashboard/src/utils/releaseStats.ts:191-196 | rows made from the listed entries describe the gaps |
| ReleaseStats.RowsTotal | dashboard/src/utils/releaseStats.ts:191-196 | their counts sum to the gathered total |
| ReleaseStats.PatternPermutation | dashboard/src/utils/releaseStats.ts:197 | sorting the rows keeps them a description of the gaps |
| ReleaseStats.GapsNonNegative | dashboard/src/utils/releaseStats.ts:170-180 | in chronological order no gap is negative |
| ReleaseStats.MeanDays | dashboard/src/utils/releaseStats.ts:195 | `Math.round` of the mean of a non-empty list of days, no contract of its own; `MeanDaysNonNegative` proves it non-negative in chronological order |
| ReleaseStats.MeanDaysNonNegative | dashboard/src/utils/releaseStats.ts:195 | in chronological order every mean gap is non-negative |
| AnalyzeReleases.StatTypesDistinct | server/src/analyzeReleases.ts:9 | the nine types have distinct names and distinct ranks, all below nine |
| AnalyzeReleases.Workdays | server/src/analyzeReleases.ts:41-57 | the releases the `if (!isWeekendDay)` counters see, order kept, no contract of its own; `WorkdaysMembers` and `WorkdaysCount` state it |
| AnalyzeReleases.WorkdaysMembers | server/src/analyzeReleases.ts:15-18 | the workday releases are exactly the releases not created on a Saturday or a Sunday |
| AnalyzeReleases.WorkdaysCount | server/src/analyzeReleases.ts:36-57 | the weekday releases and the weekend releases together are all of them: the workday counters skip exactly one release per weekend release |
| AnalyzeReleases.BucketIsTally | server/src/analyzeReleases.ts:34-70 | each counter is the `(m[k] \|\| 0) + 1` counting of the releases its type counts, by its key |
| AnalyzeReleases.BucketPrefix | server/src/analyzeReleases.ts:34-70 | one more release bumps a counter under its key, except a weekend release with a workday counter |
| AnalyzeReleases.BucketCounts | server/src/analyzeReleases.ts:34-70 | a finished counter holds exactly the keys of the releases counted, each with its number of releases (at least one), summing to the number counted |
| AnalyzeReleases.CountReleaseGet | server/src/analyzeReleases.ts:34-70 | one turn of the loop applies each type's step to that type's counter |
| AnalyzeReleases.CountsStep | server/src/analyzeReleases.ts:34-70 | one turn keeps all nine counters the counts of the releases seen so far |
| AnalyzeReleases.YearStep | server/src/analyzeReleases.ts:39-43 | the year counters bump under "YYYY"; the workday one skips weekend releases |
| AnalyzeReleases.MonthStep | server/src/analyzeReleases.ts:46-50 | the month counters bump under "YYYY-MM"; the workday one skips weekend releases |
| AnalyzeReleases.WeekStep | server/src/analyzeReleases.ts:53-57 | the week counters bump under "YYYY-Www"; the workday one skips weekend releases |
| AnalyzeReleases.DayStep | server/src/analyzeReleases.ts:60-61 | the day counter bumps under "YYYY-MM-DD" for every release |
| AnalyzeReleases.DayNameStep | server/src/analyzeReleases.ts:64-65 | the weekday-name counter bumps under the English day name for every release |
| AnalyzeReleases.HourStep | server/src/analyzeReleases.ts:68-69 | the hour counter bumps under "HH" for every release |
| AnalyzeReleases.CountsNothing | server/src/analyzeReleases.ts:22-32 | the nine empty dictionaries count no releases |
| AnalyzeReleases.CountPeriods | server/src/analyzeReleases.ts:22-70 | after the loop each of the nine dictionaries is its type's counter over all the releases |
| AnalyzeReleases.EmittedNothing | server/src/analyzeReleases.ts:21 | the empty row list lists no counter |
| AnalyzeReleases.AppendRows | server/src/analyzeReleases.ts:73-80 | one `forEach` appends one row per entry, in the listing's order, after what was there |
| AnalyzeReleases.PushEntries | server/src/analyzeReleases.ts:73-80 | pushing the entries of the next counter by rank lists one more counter |
| AnalyzeReleases.EmitStep | server/src/analyzeReleases.ts:73-160 | appending a counter's rows keeps every row an entry of its type's counter, every key present, no key twice, and the per-type sums right |
| AnalyzeReleases.EmitRowsFrom | server/src/analyzeReleases.ts:73-160 | every row is an entry of its type's counter, with the repository's name |
| AnalyzeReleases.EmitCoverage | server/src/analyzeReleases.ts:73-160 | every entry of the counters listed so far has a row |
| AnalyzeReleases.EmitDistinct | server/src/analyzeReleases.ts:73-160 | no (type, period) pair appears twice |
| AnalyzeReleases.PushedSums | server/src/analyzeReleases.ts:73-80 | the rows pushed for one counter add up to its total under their type, and to nothing under any other |
| AnalyzeReleases.EmitSums | server/src/analyzeReleases.ts:73-160 | the values of each listed type add up to its counter's total, and those of unlisted types to zero |
| AnalyzeReleases.EmitRows | server/src/analyzeReleases.ts:73-160 | the nine blocks, in the source's order, list all nine counters |
| AnalyzeReleases.PushThree | server/src/analyzeReleases.ts:73-100 | three consecutive blocks list three more counters |
| AnalyzeReleases.RowLe | server/src/analyzeReleases.ts:163-179 | the final comparator: different types by rank, one type by period; `RowLeOrders` proves it a total preorder |
| AnalyzeReleases.RowLeOrders | server/src/analyzeReleases.ts:163-179 | the rank-then-period comparator is a total preorder |
| AnalyzeReleases.EmittedPermutation | server/src/analyzeReleases.ts:163 | sorting keeps the rows a faithful listing of the counters |
| AnalyzeReleases.EmittedSummarises | server/src/analyzeReleases.ts:73-160 | the emitted rows list every (type, period) of the releases once, with the number of releases counted there (at least one), and each type's values sum to the number of releases it counts |
| AnalyzeReleases.WorkdaysCountBound | server/src/analyzeReleases.ts:41-57 | a key's count over the weekday releases never exceeds its count over all releases |
| AnalyzeReleases.WorkdayCountWithin | server/src/analyzeReleases.ts:41-57 | a period counted on weekdays is counted over all releases too, at least as often |
| AnalyzeReleases.UnrestrictedShares | server/src/analyzeReleases.ts:39-57 | a workday type counts the weekday releases by the same key as its unrestricted type, which counts them all |
| AnalyzeReleases.WorkdayRowWithin | server/src/analyzeReleases.ts:83-130 | a workday row has a row of its unrestricted type for the same period with a value at least as large |
| AnalyzeReleases.WorkdayRowsWithin | server/src/analyzeReleases.ts:83-130 | the same for every workday row |
| AnalyzeReleases.SortedRanks | server/src/analyzeReleases.ts:163-177 | in comparator order the ranks never decrease |
| AnalyzeReleases.SortRows | server/src/analyzeReleases.ts:163-179 | the sorted rows report the releases (see `AnalyzeReleases` below) |
| AnalyzeReleases.EmitSorted | server/src/analyzeReleases.ts:73-179 | emission followed by the sort reports the releases the counters count |
| AnalyzeReleases.AnalyzeReleases | server/src/analyzeReleases.ts:20-180 | see the list below the table |
| PlainObjects.BumpAsWritten | dashboard/src/utils/releaseStats.ts:100 | `(o[k] \|\| 0) + 1` on an object literal, as written: only key `k` changes, and it is present afterwards |
| PlainObjects.TallyAsWritten | dashboard/src/utils/releaseStats.ts:99-100 | the author counting of `calculateStats` as written has an entry exactly for the logins that occur |
| PlainObjects.OrdinaryKeysCount | dashboard/src/utils/releaseStats.ts:99-100 | when no login names an inherited method of `{}`, the code as written counts exactly as `Tallies.TallyBy` does |
| PlainObjects.InheritedKeyCounter | dashboard/src/utils/releaseStats.ts:99-100 | a login that names an inherited method and occurs c times ends as the string of that method's source followed by c '1's, not as c |
| PlainObjects.Lookup | dashboard/src/utils/releaseStats.ts:118 | `authorStats[login]` is an own entry exactly when one was stored, and missing (falsy) only when the login names no inherited method |
| PlainObjects.GatherStepAsWritten | dashboard/src/utils/releaseStats.ts:118-122 | one turn of the gathering loop as written, `None` where it throws; `GatherStepKnown` states it |
| PlainObjects.GatherAsWritten | dashboard/src/utils/releaseStats.ts:117-123 | the gathering loop as written; `GatherAsWrittenThrows` states it |
| PlainObjects.GatherAsWrittenThrows | dashboard/src/utils/releaseStats.ts:117-123 | the gathering loop as written throws exactly when some weekday login names an inherited method, and otherwise gathers what `ReleaseStats.GatherAuthors` gathers |
| PlainObjects.GatherStepKnown | dashboard/src/utils/releaseStats.ts:118-122 | one turn after a prefix that did not throw: it throws exactly for an inherited name, and otherwise gathers one more release |
| PlainObjects.ConstructorLogin | dashboard/src/utils/releaseStats.ts:100 | one release by "constructor": as written its counter is the string "function Object() { [native code] }1"; the model counts 1 |
| PlainObjects.ConstructorLoginThrows | dashboard/src/utils/releaseStats.ts:117-122 | the same release makes the top-authors loop as written throw |

What the top-level contracts promise:

- **`ReleaseStats.CalculateStats`**:
  - `totalReleases` is the number of weekday releases, and `weekendReleaseCount` the number of weekend ones; together they make up the whole input.
  - Each of `releasesByType`, `releasesByWeekday`, `releasesByHour`, `releasesByMonth` and `releasesByAuthor` counts the weekday releases by its key.
  - The weekday and hour dictionaries start from zero counters for exactly the five weekday names and the eleven buckets, and keep exactly those keys.
  - All five dictionaries sum to `totalReleases`.
  - `preReleaseCount` and `draftCount` count the weekday releases whose flag is the string "TRUE", so neither exceeds `totalReleases`.
- **`ReleaseStats.GetTopAuthors`**:
  - One row per author of a weekday release, with the author's number of releases and `Math.round` of the mean whole-day gap between consecutive releases in input order (0 for one release).
  - Counts are non-increasing and authors distinct.
  - The list is cut where `slice(0, limit)` cuts: min(limit, number of authors) for the default 5 or any non-negative limit, and all but the last `-limit` rows for a negative one.
  - No author left out has more releases than an author shown.
- **`ReleaseStats.GetReleaseTrend`**:
  - `monthly` has one point per month with a weekday release, carrying that month's count.
  - Months are distinct and in ascending key order, which is calendar order (`Calendar.MonthKeyOrder`).
  - `cumulative` has the same length; point i carries the sum of the first i + 1 monthly counts.
  - The series strictly increases and ends at the number of weekday releases.
- **`ReleaseStats.GetVersionUpgradePattern`**:
  - There is an ordering of the weekday releases by publication time such that the rows are exactly one per kind that starts a gap.
  - Each row carries the number of releases of that kind followed by another release, and the rounded mean of those gaps, which is never negative.
  - Kinds are distinct and counts non-increasing.
  - The counts add up to max(0, n - 1) for n weekday releases.
- **`AnalyzeReleases.AnalyzeReleases`**:
  - Every row carries the repository's name.
  - Every (type, period) pair of the releases appears exactly once, with the number of releases that type counts in that period, so at least one.
  - The values of each unrestricted type add up to the number of releases, and those of each workday type to the number of releases created on a weekday.
  - The rows are sorted by the type rank 0 to 8 (yearly, workday_yearly, monthly, workday_monthly, weekly, workday_weekly, daily, day_of_week, hour_of_day), then by period.
  - `WorkdayRowsWithin` adds that every workday row has a matching unrestricted row with a value at least as large.

Where the two descriptions of the system disagree, this model follows the
code. The design description has a classifier that:
- recognises scoped packages, plain semantic versions judged by their highest non-zero component, and date-based tags;
- returns one of six types.

The classifier in `dashboard/src/utils/releaseStats.ts:13-36` does none of
that. It returns one of four labels, decided only by how many leading
'.'-components `Number` accepts, and `ReleaseTags` models that classifier.

## Left out

- Network, server and UI code is not part of this model: `server/src/fetchReleases.ts` (GitHub HTTP calls, pagination, rate-limit waits), `server/src/index.ts` (the HTTP endpoint and CSV loading), `server/src/generateCSV.ts` (a wrapper over a CSV library) and `dashboard/src/App.tsx` (charts and `fetch`).
- Date parsing, time zones and formatting are not modelled. A timestamp is given already decoded (`Calendar.Moment`):
  - year 0–9999, month, day, hour, weekday 0–6 with 0 for Sunday;
  - the week number 1–53 of the week-of-year plugin;
  - seconds since the epoch.
- How the week-of-year plugin numbers weeks is not modelled. In particular, a late-December date in week 1 of the next year gets the current year in its week key, exactly as the code builds it.
- Invalid dates, whose weekday is NaN so that they count as weekday releases, are not modelled.
- ReleaseTags.IsNumeric: `Number(piece)` is modelled as "empty or all ASCII digits". The empty string counts as numeric because `Number('')` is 0. Every other string `Number` accepts is left out and classified as not numeric: a sign ("+1", "-1"), an exponent ("1e3"), surrounding whitespace, the prefixes "0x", "0b" and "0o", and "Infinity". So the tags "Infinity", "-1" or "0x1" are major in the code and unknown in the model. (A decimal point cannot occur inside a piece, because the pieces are split at '.'.)
- Text.LexLe: `localeCompare` is modelled as code-unit lexicographic order. This agrees with it on the period keys compared here (digits, '-', 'W' and day names); locale collation of other strings is not modelled.
- Collections.Entries: the order `Object.entries` lists keys in (integer-like keys first, then insertion order) is left open. Every result is proved for any order, so ties in the count-descending sorts may come out in any order.
- Collections.SortBy: no contract claims stability. `Array.prototype.sort` is stable since ECMAScript 2019, and the properties above hold for any order of equal elements, so they hold for the stable one.
- Floating point is not modelled. `Math.round(s / d)` is exact integer rounding (`ReleaseStats.RoundDiv`), and `diff(..., 'day')` is whole seconds divided by 86400 and truncated toward zero (`Calendar.DayDiff`).
- ReleaseStats.GetTopAuthors: the mean gap is proved non-negative only for dates in chronological order (`GapSumSpan`). The code does not sort an author's dates, and with unsorted input a gap, and so the mean, can be negative. The model keeps the input order.
- ReleaseStats.GetVersionUpgradePattern: the sort by `unix()` is stable, so releases published in the same second keep their input order. The contract states the rows for SOME chronological order (`exists chrono`). This deliberately over-approximates the stable order: it does not say which order of same-second releases is used.
- The fields of a release that the core does not read (identifiers, names, URLs, download counts, the precomputed weekday, hour and version fields) are left out. `ReleaseStats.Release` keeps the six fields the dashboard statistics read, and `AnalyzeReleases.GitHubRelease` keeps only `created_at`.
- ReleaseStats.CalculateStats: `releasesByAuthor` counts every login as a number. In the code, a login spelled like a method `{}` inherits ("constructor", "toString", "valueOf", "hasOwnProperty", "isPrototypeOf", "propertyIsEnumerable", "toLocaleString") gets a string instead: the function's source text followed by one '1' per release. The code as written is `PlainObjects.TallyAsWritten`; see Findings.
- ReleaseStats.GatherAuthors: gathers a login spelled like an inherited method of `{}` like any other login. The code's `!authorStats[login]` is false for such a login, so no entry is created and `dates.push` throws a TypeError. The code as written is `PlainObjects.GatherAsWritten`; see Findings.
- ReleaseStats.GetTopAuthors: returns rows for every input. The code throws as soon as a weekday release's login is spelled like an inherited method of `{}` (`PlainObjects.GatherAsWrittenThrows`).
- `__proto__` and the other inherited names with '_' are not modelled, because a GitHub login holds only letters, digits and '-'.
- AnalyzeReleases.CountPeriods returns the nine dictionaries as separate values, as the code keeps them. The emission and the sort take them bundled in one `Counters` value.
- A `limit` that is not an integer is not modelled.

## Findings

| source | as written | input that shows it | evidently intended | confidence | as-written member | corrected member |
|---|---|---|---|---|---|---|
| dashboard/src/utils/releaseStats.ts:100 | `releasesByAuthor[login] = (releasesByAuthor[login] \|\| 0) + 1` on `{}` reads the inherited `Object` function for the login "constructor", and `+ 1` turns it into a string | one weekday release whose `AuthorLogin` is "constructor": the counter is "function Object() { [native code] }1" | the counter is 1, as for any other login | high; not executed | PlainObjects.ConstructorLogin | ReleaseStats.CalculateStats |
| dashboard/src/utils/releaseStats.ts:118-122 | `!authorStats[login]` is false for an inherited method, so no entry is created; `count++` writes NaN onto the function and `dates.push` throws a TypeError | the same release: `getTopAuthors` throws | the author gets an entry with count 1 and one date | high; not executed | PlainObjects.ConstructorLoginThrows | ReleaseStats.GatherAuthors |
