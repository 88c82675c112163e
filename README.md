# ApsimIssues aggregation engine in Dafny

ApsimIssues is a small Go tool that reads the issues and pull requests of a
GitHub repository and draws graphs of how many bugs were open, opened,
closed and fixed over time, per user and overall. This project models the
aggregation engine at its centre and proves what it computes. The engine
turns dated issue and pull-request records into maps from dates to counts.
It groups and filters the records, orders map keys, and packs the maps
into (x, y) series handed to a line-plot sink.

Records are datatypes holding only the fields the engine reads
(`records.dfy`). Instants are integers in Unix seconds. Go's
`map[time.Time]int` is `map<int, int>`. A map the source updates in place
through a pointer is a value that a method returns updated. The key
iteration order of a Go map is unspecified; the loops take keys with `:|`,
so every proof holds for any visiting order.

Every builder loop is a method. Its `ensures` ties the result to an
independent reference definition, and lemmas about those definitions state
what the source promises:

- **Issue counts.** The three issue builders are proved equal to
  comprehension maps over counting functions (`CreatedBy`, `ClosedBy`).
  Lemmas over those maps give monotonicity, conservation, and "the open
  count at k is the number of issues open at k".
- **Pull-request extraction.** The pattern of `newPull` is, as written, a
  one-character class followed by `" #"` and a digit run. `Spans` models
  that scanner, and its leftmost-first, non-overlapping behaviour is proved.
- **Selection and plotting.** Each graph composition returns the plot it
  would save. Its `ensures` says which series are drawn, in which order,
  and built from which maps.

Two things here depart from a plain reading of the source's comments:

- `getCumIssuesByDate` (processing.go:34-47) adds one per closed pull
  request, not the number of issues it references, whatever its comment
  says. The model follows the code.
- `strconv.Atoi` on a digit run too large for a 64-bit `int` returns the
  largest `int` together with a range error. `newPull` prints the error and
  appends that clamped value. The model appends the clamped value, not
  zero.

## Model

| member | source | states |
|---|---|---|
| Accumulator.IncrementAfterDate | numOpenIssues.go:12-18 | same key set; every count at a key on or after the date goes up by one, every other count is unchanged |
| Accumulator.DecrementAfterDate | numOpenIssues.go:22-28 | same key set; every count at a key on or after the date goes down by one, every other count is unchanged |
| NumOpenIssues.ZeroAtCreationDates | numOpenIssues.go:34-36 | the seeding pass: keys are exactly the creation dates, all values zero |
| NumOpenIssues.GetOpenIssuesByDate | numOpenIssues.go:31-45 | keys are exactly the creation dates (closure dates never add a key); value at k is the number created by k minus the number closed by k |
| NumOpenIssues.GetCumOpenIssuesByDate | numOpenIssues.go:49-60 | keys are exactly the creation dates; value at k is the number of issues created on or before k |
| NumOpenIssues.GetCumIssuesClosedByDate | numOpenIssues.go:63-79 | keys are exactly the closure dates of closed issues (open issues add none); value at k is the number closed on or before k |
| NumOpenIssues.EmptyIssues | numOpenIssues.go:31-79 | an empty collection yields three empty maps |
| NumOpenIssues.CreatedByMonotone | numOpenIssues.go:49-60 | the number of issues created by a date never falls as the date advances |
| NumOpenIssues.ClosedByMonotone | numOpenIssues.go:63-79 | the number of issues closed by a date never falls as the date advances |
| NumOpenIssues.CumOpenedMonotone | numOpenIssues.go:49-60 | the cumulative-opened map is non-decreasing along its dates |
| NumOpenIssues.CumClosedMonotone | numOpenIssues.go:63-79 | the cumulative-closed map is non-decreasing along its dates |
| NumOpenIssues.OpenedLessClosedIsOpen | numOpenIssues.go:31-45 | when no issue closes before it opens, opened-by-k minus closed-by-k is the number of issues open at k |
| NumOpenIssues.OpenCountsGauge | numOpenIssues.go:31-45 | under the same condition every value of the open-count map is the number of issues open at its date, hence never negative |
| NumOpenIssues.Conservation | numOpenIssues.go:31-79 | at a date keyed by both the open-count and the closed map, open equals cumulative opened minus cumulative closed |
| NumOpenIssues.OpenedSince | numOpenIssues.go:129-131 | the opened window keeps exactly the issues created on or after the first fix date |
| NumOpenIssues.ClosedSince | numOpenIssues.go:132-135 | the closed window keeps exactly the closed issues closed on or after the first fix date |
| NumOpenIssues.CumulativeSeries | numOpenIssues.go:138-139 | the "Total issues opened" series of the cumulative-opened map and the "Total issues closed" series of the cumulative-closed map |
| NumOpenIssues.PlotSinceFirstFix | numOpenIssues.go:128-148 | the plot holds the windowed opened series, the windowed closed series and the fix series, in that order |
| NumOpenIssues.GraphOpenedVsClosedForUser | numOpenIssues.go:114-150 | nothing is plotted exactly when the user has no fix dates; otherwise the windows start at the user's earliest fix date, and the plot is opened, closed, then the user's fix series |
| Processing.PullsOf | processing.go:12-20 | the selected pull requests are exactly those whose login is the username |
| Processing.PullsByUser | processing.go:12-20 | exactly the user's pull requests, in input order, each annotated by newPull |
| Processing.AnnotateAllMembers | processing.go:14-17 | an annotated list holds exactly the annotations of its source pull requests |
| Processing.GroupStep | processing.go:26-28 | adding one pull request to its author's group extends that author's grouping by one position |
| Processing.GroupsSnoc | processing.go:26-28 | one loop iteration extends the grouping of a prefix to the next prefix, for every login |
| Processing.PullsGroupedByUser | processing.go:24-30 | one group per author login; each group is that author's pull requests in input order, annotated |
| Processing.NoPullsOf | processing.go:24-30 | a login that authored nothing has an empty group |
| Processing.GroupsPartition | processing.go:24-30 | each pull request lies in the group of its own login and in no other |
| Processing.GroupSizesSum | processing.go:24-30 | the group sizes add up to the number of pull requests |
| Processing.GetCumIssuesByDate | processing.go:34-47 | keys are exactly the closure dates of closed pull requests; value at k is the number of pull requests closed on or before k (open ones ignored) |
| Processing.ClosedPullsByMonotone | processing.go:41-46 | the number of pull requests closed by a date never falls as the date advances |
| Processing.CumPullCountsMonotone | processing.go:41-46 | the cumulative pull-request map is non-decreasing along its dates |
| Processing.ClosedPullsByAll | processing.go:41-46 | on or after the last closure date every closed pull request is counted |
| Processing.LastValueCountsClosedPulls | processing.go:41-46 | the value at the latest date is the number of closed pull requests |
| Processing.NoClosureDatesNoneClosed | processing.go:36-40 | with no closure date, no pull request is closed |
| Processing.GetIssuesByDate | processing.go:51-59 | keys are exactly the closure dates; value at d is the number of references of the pull requests closed exactly at d; open ones skipped |
| Processing.RefsClosedAtUnkeyed | processing.go:51-59 | no references are counted at a date where no pull request closed |
| Processing.RefsByDateSum | processing.go:51-59 | the per-date values add up to all references of closed pull requests |
| Processing.RefsClosedAtSum | processing.go:51-59 | the per-date reference counts, summed over the closure dates, are the total references of closed pull requests |
| Processing.UserCounts | processing.go:63-70 | counting the user's annotated pull requests closed by k counts the user's pull requests closed by k |
| Processing.UserDates | processing.go:63-70 | the closure dates of the user's annotated pull requests are the user's closure dates |
| Processing.GetBugFixRate | processing.go:63-70 | equals getCumIssuesByDate of pullsByUser: keyed by the user's closure dates, value at k the number of the user's pull requests closed by k |
| PullRequests.DigitRun | pullRequest.go:13 | the longest run of digits at a position: all digits, and followed by a non-digit or the end |
| PullRequests.MatchEnd | pullRequest.go:13 | a greedy match spans at least class character, space, '#' and one digit, and stays inside the body |
| PullRequests.Spans | pullRequest.go:25 | the matches found are greedy matches of the pattern, in order and disjoint |
| PullRequests.SpansLeftmostHead | pullRequest.go:25 | leftmost-first: no match starts before the first match found |
| PullRequests.SpansLeftmostGaps | pullRequest.go:25 | leftmost-first: no match starts between one match found and the next (or the end) |
| PullRequests.SpansSuffix | pullRequest.go:25 | scanning resumes at the end of each match: the matches from there are the rest of the list |
| PullRequests.SpansCons | pullRequest.go:25 | a match at the scan position is the first match, followed by the matches after it |
| PullRequests.SpansSkip | pullRequest.go:25 | scanning past a stretch where no match starts finds nothing there |
| PullRequests.Matches | pullRequest.go:25 | one matched text per match: a class character, a space, '#', then digits only |
| PullRequests.ReferencedIssues | pullRequest.go:27-36 | one reference per match, in match order |
| PullRequests.ReferenceOfSpan | pullRequest.go:29-31 | the k-th reference is the value of the digits after the '#' of the k-th match |
| PullRequests.NewPull | pullRequest.go:20-38 | the base pull request is kept unchanged; one issue number per match, in order, the digits' value, or the largest int when it does not fit |
| PullRequests.NoHashDigitNoReferences | pullRequest.go:25-36 | a body without a space, '#' and digit in a row references nothing |
| PullRequests.NoReferenceHere | pullRequest.go:25-36 | "no reference here" references nothing |
| PullRequests.TwoKeywordsSpans | pullRequest.go:13 | "fixes #12 and resolves #34" has exactly the matches "s #12" and "s #34" |
| PullRequests.TwoKeywordsReferences | pullRequest.go:13 | "fixes #12 and resolves #34" references [12, 34] |
| PullRequests.RepeatedSpans | pullRequest.go:25 | "fix #12 fix #12" has two matches |
| PullRequests.RepeatedReferenceKept | pullRequest.go:27-36 | duplicates are kept: "fix #12 fix #12" references [12, 12] |
| PullRequests.LetterOutsideClass | pullRequest.go:13 | "bug #5" references nothing, because 'g' is not in the class |
| PullRequests.ClassNotKeyword | pullRequest.go:13 | any class character counts, keyword or not: "see #5" references [5] |
| Util.SortInPlace | util.go:50 | the array ends ascending and is a permutation of its initial contents |
| Util.InsertLast | util.go:50 | one insertion step extends the ascending prefix by one cell, as a permutation |
| Util.SwapDown | util.go:50 | exchanges two neighbouring cells, leaves the rest alone, and keeps the multiset |
| Util.DistinctCounts | util.go:44-49 | a sequence without repeats holds each key at most once |
| Util.PermutationDistinct | util.go:44-50 | reordering a sequence without repeats leaves it without repeats |
| Util.SortKeys | util.go:43-52 | as long as the map; holds every key and nothing else; strictly ascending by instant |
| Util.AscendingUnique | util.go:50 | two strictly ascending sequences with the same elements are equal, so the key order is unique |
| Util.FirstValueIsFirst | util.go:34-36 | the first "token=" line is the one that counts |
| Util.FirstValueAbsent | util.go:34-40 | without a "token=" line there is no token |
| Util.LastValueIsLast | util.go:28-33 | a later "username=" or "password=" line overrides an earlier one |
| Util.LastValueAbsent | util.go:24 | a missing "username=" or "password=" line leaves the empty string |
| Util.GetAuth | util.go:24-40 | token authentication with the first "token=" line's remainder, if any; otherwise basic authentication with the last "username=" and "password=" remainders |
| NumIssuesFixed.TotalRefsAppend | numIssuesFixed.go:52-58 | the reference total splits over a concatenation |
| NumIssuesFixed.NumIssuesResolved | numIssuesFixed.go:52-58 | the total number of references over all pull requests; 0 for none |
| NumIssuesFixed.ClosedTotalIsTotal | numIssuesFixed.go:60-66 | with every pull request closed, the closed total is the whole total |
| NumIssuesFixed.GetIssuesByDate | numIssuesFixed.go:60-66 | with every pull request closed, keys are the closure dates and the value at d is the number of references of pull requests closed at d |
| NumIssuesFixed.ByDateSumIsResolved | numIssuesFixed.go:52-66 | the per-date values add up to numIssuedResolved |
| NumIssuesFixed.GetCredentials | numIssuesFixed.go:134-144 | the remainders of the last "username=" and "password=" lines, "" when absent |
| DateSeriesOps.SeriesFromMap | dateSeries.go:19-27 | X is the strictly ascending key sequence, Y[i] is the value at X[i], Name is the title; an empty map gives empty X and Y |
| DateSeriesOps.SeriesOfUnique | dateSeries.go:19-27 | a map and title determine the series, whatever order the keys were visited in |
| DateSeriesOps.MonotoneSeries | dateSeries.go:22-25 | a non-decreasing map gives a non-decreasing Y |
| DateSeriesOps.FirstDateIsEarliest | dateSeries.go:22 | the first date is the earliest key; no dates exactly for an empty map |
| DateSeriesOps.NameIsTitle | dateSeries.go:43-45 | getName returns the title the series was built with |
| DateSeriesOps.GetXYPairs | dateSeries.go:30-40 | fails exactly when X and Y differ in length; otherwise point i pairs X[i] with Y[i] |
| IntSeriesOps.NameIsGiven | intSeries.go:31-33 | getName returns the name the series was created with |
| IntSeriesOps.GetXYPairs | intSeries.go:18-28 | fails exactly when X and Y differ in length; otherwise point i pairs X[i] with Y[i] |
| IntSeriesOps.Matching | intSeries.go:45-51 | the ascending positions of x's dates that occur among y's dates |
| IntSeriesOps.MatchingAll | intSeries.go:45-51 | when every date of x occurs in y, no position is dropped |
| IntSeriesOps.JoinByDate | intSeries.go:43-51 | the join loop: for each shared date, in x's order, x's count paired with y's count at that date's first position in y |
| IntSeriesOps.CreateIntSeries | intSeries.go:35-57 | equal Y lengths pass both Y sequences through unchanged, dates unchecked; otherwise the join, with equal output lengths at most len(x.X); the name passes through |
| BarSeriesOps.BarSeriesFromGroups | barSeries.go:25-35 | one bar per group, each group named once; Names and Values in lockstep; bar i as high as the group it names |
| BarSeriesOps.BarsMeasureGroups | barSeries.go:16-23 | Len is the number of groups, and Value(i) is the size of group Names[i] |
| BarSeriesOps.GetXY | barSeries.go:37-39 | the first bar's height on both axes |
| Graph.CreateLinePlot | graph.go:14-37 | no series is an error ("Graph error: No series provided"), so is a series whose points cannot be formed; otherwise the series pass through in order, with a time axis exactly when the first is a date series |
| Graph.Quot | graph.go:158-162 | Go's integer division truncates toward zero: the remainder a - q * b is smaller than b in magnitude and has the sign of a |
| Graph.QuotWithinTicks | graph.go:158-162 | a truncated quotient by b is at most 10 exactly when the dividend is below 11 * b |
| Graph.TickIncrement | graph.go:154-168 | 1 exactly when at most 10 months; otherwise the first of 3, 6, 12 whose truncated quotient is at most 10; the default ticker exactly when the yearly quotient exceeds 10 |
| Graph.TickThresholds | graph.go:154-168 | the same rule in months: up to 10, 32, 65 and 131 months for steps of 1, 3, 6 and 12 |
| Graph.Ticks | graph.go:147-177 | ticks start at minTime, step by the chosen number of months, none lies after maxTime, and the next step would pass maxTime; the default ticker exactly when no increment is chosen |
| Graphs.GraphBugFixRate | graphs.go:11-26 | the user's cumulative fix series alone, titled with the user's name |
| Graphs.GraphIssuesByDate | graphs.go:29-41 | the open-count series alone |
| Graphs.GraphOpenedVsClosed | graphs.go:46-60 | the cumulative opened then the cumulative closed series of the whole collection |
| Graphs.GraphOpenedVsClosedForUser | graphs.go:66-94 | opened window (created on or after the user's first fix date), closed window (closed on or after it), then the user's fix series |
| Graphs.FixSeries | graphs.go:104-107 | one user's cumulative fix series, titled "Total fixed by" the user |
| Graphs.PlotWithTotals | graphs.go:109-123 | the given series first, unchanged and in order, then the opened and closed totals of the whole collection |
| Graphs.GraphOpenedVsClosedForUsers | graphs.go:100-124 | one fix series per requested user, in argument order, then opened, then closed |
| Graphs.SelectedMeansClosedCount | graphs.go:137-141 | a user is selected exactly when they closed at least minN pull requests, the value at their last date |
| Graphs.SelectUser | graphs.go:136-144 | a user's series is kept exactly when the value at their last date is at least minN; it is their cumulative series, titled with their login |
| Graphs.SelectionStep | graphs.go:135-145 | visiting one more name keeps the selection exact: every wanted visited name once, nothing else |
| Graphs.AuthorStep | graphs.go:135-145 | visiting one more author keeps the author selection exact |
| Graphs.VisitAuthor | graphs.go:136-144 | one loop iteration: the author's series is appended exactly when selected |
| Graphs.SelectAuthors | graphs.go:133-145 | over every author, in any map order: each selected author's series exactly once, and nothing else |
| Graphs.AuthorsPlottable | graphs.go:143 | every selected series has as many values as dates |
| Graphs.AsDates | graphs.go:143 | the date series wrapped as plot series, one for one |
| Graphs.GraphBugfixRateByUser | graphs.go:131-162 | the selected authors' series first, then the opened and closed totals |
| Graphs.Decimal | graphs.go:157 | the %d numeral of the title: never empty; digits only for a non-negative number, a minus sign and digits otherwise |
| Graphs.DecimalRoundTrip | graphs.go:157 | reading the numeral of a non-negative number back as digits gives the number |
| Helpers.Filter | graphs.go:74-80 | filterIssues keeps exactly the elements satisfying the predicate, in order |
| Helpers.FilterKeepsAll | graphs.go:74-80 | a predicate true of every element keeps the collection unchanged |
| Helpers.FilterAppend | graphs.go:74-80 | filtering a concatenation is the concatenation of the filtered parts, so kept elements keep their order and repetitions |
| Helpers.GetFirstDate | graphs.go:73 | getFirstDate: the smallest key, None for an empty map |
| Helpers.GetLastDate | graphs.go:140 | getLastDate: the largest key, None for an empty map |
| Helpers.IndexOf | intSeries.go:46 | indexOf: the first index holding the value, or -1 exactly when it is absent |
| Helpers.SumValuesOf | processing.go:51-59 | a sum of map values is the sum of any function agreeing with the map |

Several files are revisions that repeat the same code:

- processing.go:73-122 repeats the code of numOpenIssues.go:31-79; only a
  comment differs. It is modelled once, in `NumOpenIssues`.
- numIssuesFixed.go:98-107 repeats util.go:43-52. It is modelled once, as
  `Util.SortKeys`.
- `graphIssuesByDate`, `graphOpenedVsClosed` and `graphBugfixRateByUser` at
  numOpenIssues.go:82-112 and 184-216 repeat graphs.go:29-60 and 131-162,
  apart from printing. So does `graphBugFixRate` at processing.go:126-142,
  which repeats graphs.go:11-26. Each is modelled once, in `Graphs`.

Two compositions in numOpenIssues.go differ from their graphs.go
counterparts. Both call a two-result `getBugFixRate` that returns the
dates and the counts of the user's fixes:

- `graphOpenedVsClosedForUser` (numOpenIssues.go:114-150) also returns
  early, without plotting, when there are no fix dates. It is modelled
  separately, as `NumOpenIssues.GraphOpenedVsClosedForUser`.
- `graphOpenedVsClosedForUsers` (numOpenIssues.go:152-179) builds each
  user's series as a literal from those dates and counts instead of calling
  `seriesFromMap`. Taking the two results to be the ascending dates of the
  one-result map and their values, that literal is the series
  `seriesFromMap` builds. So the revision is modelled by
  `Graphs.GraphOpenedVsClosedForUsers`; see "Left out".

## Left out

- Fetching from the forge is not part of this model. That covers
  `getAllIssues` and `getAllPullRequests` (util.go:111-191) and the
  client-based `pullsByUser` (numIssuesFixed.go:16-50): these are
  pagination over a network API.
- File I/O is not modelled: cache.go, `issuesFromCache`, `pullsFromCache`,
  `readFromCache`, `writeIssuesToCache`, `writeToCache`, `fileExists`,
  `exportToCsv`, and the file reading and fatal-error paths of `getAuth` and
  `getCredentials`. `Util.GetAuth` and `NumIssuesFixed.GetCredentials` take
  the file's lines, already split.
- main.go and options.go are not part of this model. They handle arguments,
  date parsing and orchestration. The `main` of numIssuesFixed.go is left out
  for the same reason.
- Printing is not modelled: progress lines, "Generated graph" messages, and
  the Atoi diagnostic of `newPull`.
- Rendering is not modelled: gonum plot construction, fonts, colours,
  legends, `createBarChart` and its stacking, saving to disk, and tick label
  formatting. A plot is the record of its labels, time-axis flag and
  series.
- Floating point is not modelled. Plotted points and bar heights are
  float64 in the source and integers here. The progress percentages are
  left out.
- Calendar arithmetic is not part of this model. The month difference
  computed by `diff` is the `totalMonths` input of
  `Graph.Ticks`. `AddDate` is its `addMonths` parameter, assumed only to move
  time forward. The float bounds become whole seconds.
- The default gonum ticker, which `Ticks` falls back to, is not part of
  this model. It appears as `None`.
- `time.Time` equality also compares location and monotonic reading. Here
  instants are plain integers, and "after or equal" is `>=`.
- `filterIssues`, `getFirstDate`, `getLastDate`, `indexOf`, `diff` and the
  two-result `getBugFixRate` are not part of this model. The first four are
  given the contracts their call sites rely on (`Helpers`). The two-result
  `getBugFixRate` is taken to return the sorted dates of the one-result map
  and their values. Under that reading the `graphOpenedVsClosedForUsers`
  of numOpenIssues.go:152-179 draws the same series as the one in
  graphs.go:100-124, so it has no member of its own. A two-result
  `getBugFixRate` that returned anything else would not be captured.
- `getLastDate` on an empty map gives the zero time, which is absent from
  the map, so the count reads as 0. `Graphs.LastValue` states that directly.
- `getFirstDate` on an empty map gives Go's zero time, written
  `Graphs.ZeroTime`.
- Go panics are preconditions where the source indexes out of range:
  - `BarSeriesOps.Value` and `BarSeriesOps.GetXY` require an index inside
    the bars.
  - `IntSeriesOps.CreateIntSeries` requires, in its join branch, that each
    Y is at least as long as its X.
  - `NumIssuesFixed.GetIssuesByDate` requires every pull request to be
    closed, which the query feeding it guarantees.
- `Graph.CreateLinePlot` returns a failure for a length mismatch in one of
  the series. The source would panic inside `getXYPairs` there.
- `PullRequests.NewPull` assumes a 64-bit `int` for the `strconv.Atoi`
  clamp. It does not model the 32-bit platform bound.
- The regular-expression engine in general is not modelled. Only the one
  literal pattern is, as a hand-written scanner.
