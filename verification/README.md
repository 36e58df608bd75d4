# A verified model of the Kindora backend's cores

Kindora is a daycare backend. Teachers record observations of children, the
observations are scored and aggregated into report snapshots, snapshots are
reviewed, published and sent, and parents read them in a timeline and on a
cached dashboard. This project models the stateful and arithmetic parts of that
system in Dafny and proves what they keep over every run.

`dafny verify dfyconfig.toml` checks everything.

## How the model is built

Each service that updates rows is a class whose fields are the tables it writes.
Its methods follow the service's own order of lookups, checks and writes, and
each is proved against a function on table values. Runs are sequences of such
requests, and the theorems are about every run from any state that satisfies the
invariant. A request is one atomic step. Time is a value that only grows,
random tokens come from a counter that never repeats, SHA-256 is injective, and
an attempt to reach something outside the process (a transaction, the cache, the
generator of one-time codes) is a parameter that says how it went.

| files | what they hold |
|---|---|
| `Collections`, `Entities`, `DecimalText`, `TextReaders`, `NumberTexts`, `Uuids`, `Calendar` | list, sort and grouping laws; the rows; numerals; trimming, letter case and how numbers are read from texts, with what every numeral means; ids as texts; the Gregorian calendar |
| `Normalisation`, `Grading`, `DailyReports`, `Recording`, `Aggregation` | scoring of raw values and what each value is worth, recording of observations and what each request leaves, per-period statistics and trends |
| `Snapshots`, `SnapshotAnswers`, `SnapshotRuns`, `BulkGeneration`, `WeeklyRun`, `Scheduler`, `WeeklyHistory` | the report-snapshot service, its answers and its invariant, bulk and weekly generation, weekly reports over many weeks |
| `Receipts`, `Summaries` | read receipts and the unread badge; learning-area rollups and the admin summary |
| `Timeline`, `Dashboard`, `DashboardCache` | the parent read side: keyset pages, the live dashboard, the cache in front of it |
| `Authentication`, `AuthRuns`, `AuthHistory`, `Lockout` | login, lockout, token rotation, revocation, reset nonces, one-time codes, invitations; who gets in, read off the history |
| `Locations`, `LocationSeeder`, `ListFilter` | flattening and rebuilding the Rwanda locations; search rewrite and pages |
| `EndToEnd` | laws that span several services |

## Where the code differs from what it says

- The weekly window is documented as Monday to Sunday. It is that only when the
  job runs on a Sunday; on the scheduled Monday it is Sunday to Saturday
  (`Scheduler.WindowShape`). Weekly runs still cover every day exactly once.
- Validation reads the number a NUMERIC value starts with, scoring reads the
  whole text: `8/10` is accepted and scores 0
  (`Normalisation.PrefixNumberScoresZero`, `Normalisation.ValidatedNumericScore`).
- Validation reads the zero a hexadecimal, octal or binary text starts with,
  scoring reads its value: up to a maximum of 10, `0xFF` passes the range check and
  scores 100, and `0x5` scores 50 (`TextReaders.ReadersAgree`,
  `Normalisation.ValidatedScoreOnlyRounds`, `Normalisation.HexEscapesRange`).
- A batch item finds its student by the text of the id, a single request by the
  UUID, so they differ for ids in capitals (`DailyReports.ItemEqualsSingle`,
  `DailyReports.CapitalsRefusedInBatch`).
- Dashboard entries cached under an id in capitals are never invalidated
  (`DashboardCache.OnlyStoredSpellingRefreshes`, `DashboardCache.CapitalsServeStale`).
- The report calls a difference of exactly five points a trend, the dashboard
  does not (`Dashboard.TrendRulesDifferAtFive`).
- The coverage of the admin summary shows 100 percent while one pupil in 200 is
  missing (`Summaries.EveryPupilCounted`, `Summaries.OneUnseenShowsFull`).
- Two provinces or districts with the same trimmed name, or any name of more
  than 100 characters, stop the location seeding half way, and running it again
  never completes it (`LocationSeeder.SeedsExactlyWhenNamesDiffer`,
  `LocationSeeder.StoppedForGood`, `LocationSeeder.TwoEasts`, `LocationSeeder.LongCell`).
- A search field that starts with a key of the base clause drops the base
  condition under that key (`ListFilter.RewriteExactly`, `ListFilter.CollisionLosesScope`).
  This is a trap of the helper that no list of the program falls into
  (`ListFilter.EveryListKeepsScope`).
- Every search of the student list, which includes the date of birth, and of the
  classroom list, which includes the capacity, is refused by the database, because
  it asks for a text pattern in a date or a number (`ListFilter.SearchAnswered`,
  `ListFilter.ListsAnswerExceptTwo`, `ListFilter.StudentSearchRefused`,
  `ListFilter.ClassroomSearchRefused`).
- A generation that fails after its commit is reported as failed although the
  new draft is stored (`Snapshots.ReportSnapshotService.GenerateForStudent`).

## Model

| member | source | states |
|---|---|---|
| Normalisation.NormaliseOnScale | src/reports/services/normalisation.service.ts:63-147 | every score is a multiple of 0.01 between 0 and 100 |
| Normalisation.NumericScoring | src/reports/services/normalisation.service.ts:105-118 | a larger NUMERIC value never scores less, scaling, clamping and rounding included |
| Normalisation.FrequencyScoring | src/reports/services/normalisation.service.ts:128-147 | a larger FREQUENCY count never scores less |
| Normalisation.RubricScales | src/reports/services/normalisation.service.ts:16-30 | both rubric scales climb in equal steps to 100, and the scored labels are exactly the accepted ones |
| Grading.YesNoScoring | src/reports/services/normalisation.service.ts:120-126 | a YES_NO value scores 100 exactly when its trimmed lower-case text is true, yes or 1, and 0 otherwise |
| Grading.RubricScoring | src/reports/services/normalisation.service.ts:99-103 | a RUBRIC value scores by the place of its label, a milestone 25 points a step from 25, a letter 20 a step from 0; what is no label scores 0 |
| Grading.NumericPlaced | src/reports/services/normalisation.service.ts:105-118 | a NUMERIC value scores its share of the way from minimum to maximum within half a hundredth, 0 and 100 beyond the ends; without a number, a range or its length 0 |
| Grading.FrequencyPlaced | src/reports/services/normalisation.service.ts:128-141 | a FREQUENCY count scores its share of the maximum within half a hundredth, 100 from the maximum on; without a positive maximum 0 |
| Grading.AcceptedExactly | src/reports/services/daily-report.service.ts:397-470 | for each grading type, exactly which texts are accepted, and that a readable number outside the range has its own error |
| Grading.AcceptedIsGraded | src/reports/services/daily-report.service.ts:79-98 | every accepted value gets the grade its text stands for: yes 100 and no 0, a label its place, a number its share |
| TextReaders.ReadersAgree | src/reports/services/daily-report.service.ts:397-470 | when a whole non-blank text is a number, exponents and Infinity included, validation and scoring read the same number exactly when it has no prefix 0x, 0o or 0b or its value is zero |
| NumberTexts.LiteralRead | src/reports/services/daily-report.service.ts:420-430 | every decimal literal, with sign, fraction and exponent, is read as the number it spells: by scoring as the whole trimmed text, by validation also from the front of a longer one |
| NumberTexts.PrefixedRead | src/reports/services/normalisation.service.ts:105-118 | a number printed in base 16, 8 or 2 behind its prefix is scored by its value and validated as 0 |
| NumberTexts.TrimLeavesCore | src/reports/services/normalisation.service.ts:99-126 | trimming takes exactly the white space around a text |
| NumberTexts.WordsJoin | src/reports/services/normalisation.service.ts:99-103 | every run of white space inside a label becomes one underscore and the words stay |
| NumberTexts.CasesSwap | src/reports/services/normalisation.service.ts:99-126 | changing the case swaps the letters one by one and nothing else |
| Normalisation.ValidatedScoreOnlyRounds | src/reports/services/normalisation.service.ts:105-147 | for a value that passes validation the clamp changes nothing but rounding exactly when it is no prefixed NUMERIC literal above the maximum; such a literal scores 100 |
| Normalisation.ValidatedNumericScore | src/reports/services/daily-report.service.ts:397-470 | when a validated NUMERIC value gets the score of the number validation read: always if the whole text is a finite number without prefix; for a prefixed literal exactly when its value, capped at the maximum, rounds to the same hundredth of the scale as zero; for any other text exactly when the number read lies above the minimum by less than a twenty-thousandth of the range |
| Normalisation.PrefixNumberScoresZero | src/reports/services/normalisation.service.ts:105-118 | the text 8/10 passes validation and scores 0 although 8 scores 80 |
| Normalisation.HexEscapesRange | src/reports/services/normalisation.service.ts:105-118 | up to a maximum of 10 the texts 0xFF and 0x5 pass validation and score 100 and 50; 1e1 is ten to both readers |
| DailyReports.DailyReportService.UpsertReport | src/reports/services/daily-report.service.ts:477-528 | the row of the slot is corrected in place or a new visible row is appended; given comments are stored, null clears them, and left out they stay |
| DailyReports.DailyReportService.CreateSingle | src/reports/services/daily-report.service.ts:68-101 | activity, student and value are checked in that order; only an accepted request changes the table |
| DailyReports.DailyReportService.ProcessBatchItem | src/reports/services/daily-report.service.ts:530-581 | one item is stored or rejected without touching the table |
| DailyReports.DailyReportService.CreateBatch | src/reports/services/daily-report.service.ts:105-162 | an unknown activity and an empty list are errors that store nothing; otherwise results align with the items, succeeded counts the accepted ones and succeeded plus failed is the number of results |
| DailyReports.DailyReportService.Update | src/reports/services/daily-report.service.ts:322-356 | a new raw value is validated and scored again; comments, which null clears, and visibility, for which null is refused, change on their own |
| DailyReports.DailyReportService.Remove | src/reports/services/daily-report.service.ts:358-365 | exactly the row with the id in the school goes |
| Recording.SingleAccepts | src/reports/services/daily-report.service.ts:68-101 | a single request is accepted exactly when it names an activity and a pupil of the school and its value is acceptable, the first that fails being the error; then the slot holds the value sent with its grade, in the old row or a new visible one, and every other slot keeps its row |
| Recording.YesStoresHundred | src/reports/services/daily-report.service.ts:79-98 | an accepted YES_NO observation is stored with 100 exactly for true, yes or 1 and with 0 exactly for false, no or 0 |
| Recording.ItemAcceptable | src/reports/services/daily-report.service.ts:530-581 | an item of a batch is acceptable exactly when its id is the text of a pupil's id in the school and its value is acceptable |
| Recording.AcceptedCounts | src/reports/services/daily-report.service.ts:139-162 | what a batch counts as succeeded is the number of results with a stored row |
| Recording.UpdateAccepts | src/reports/services/daily-report.service.ts:322-356 | a correction is accepted exactly when the row is there and a value it gives is acceptable, unless it sends null for the visibility; a new value is stored with its grade |
| Recording.RemoveTakes | src/reports/services/daily-report.service.ts:358-365 | a removal is refused exactly when there is no such row and otherwise takes just that row out |
| Recording.StoredGrades | src/reports/services/daily-report.service.ts:334-342 | in every reachable state each row carries the grade its text stands for under its activity |
| DailyReports.RunInv | src/reports/services/daily-report.service.ts:334-342 | in every reachable state, with pupils enrolled and activities created in between, each score is the score of its raw value, (student, activity, date) is unique, and no row ever changes its identity or date |
| DailyReports.BatchIsFold | src/reports/services/daily-report.service.ts:105-162 | a batch stores the fold of the upserts of exactly the items that resolve and validate, and the i-th result succeeds exactly for those |
| DailyReports.LastEntryWins | src/reports/services/daily-report.service.ts:477-528 | after any list of upserts a slot holds its last entry, in the row it had before |
| DailyReports.SingleRecords | src/reports/services/daily-report.service.ts:68-101 | an accepted observation is stored as sent under the student and activity named, with comments given, cleared by null or kept when left out; every other slot keeps its row, and a rejected one changes nothing |
| DailyReports.UpdateWrites | src/reports/services/daily-report.service.ts:322-356 | a correction changes one row, the raw value only together with its score, and exactly what the patch gives; null clears the comments and is refused for the visibility |
| DailyReports.ItemEqualsSingle | src/reports/services/daily-report.service.ts:118-125 | an item acts in a batch as on its own exactly when its student id is spelled as stored or names nobody |
| DailyReports.CapitalsRefusedInBatch | src/reports/services/daily-report.service.ts:118-125 | a pupil whose id is spelled in capitals: stored when sent singly, refused in a batch |
| DailyReports.BatchEqualsSingles | src/reports/services/daily-report.service.ts:105-162 | a batch with ids spelled as stored equals the single requests sent in order, in store and in results |
| Aggregation.AvgBetween | src/reports/services/aggregation.service.ts:238-241 | an average lies between any bounds its inputs respect |
| Aggregation.ValuesListed | src/reports/services/aggregation.service.ts:105-109 | the scores are those of the scored rows, one each, in their order |
| Aggregation.AverageIsMean | src/reports/services/aggregation.service.ts:238-241 | averaging the values there are gives their sum divided by the number of rows that have one |
| Aggregation.TrendByHalves | src/reports/services/aggregation.service.ts:178-192 | a series of two or more is IMPROVING exactly when its second half averages at least five points more than the first, DECLINING exactly when at least five less, the middle score of an odd series counting as second |
| Aggregation.MonotoneTrend | src/reports/services/aggregation.service.ts:178-192 | a series that never falls is never DECLINING, one that never rises never IMPROVING |
| Aggregation.TrendShiftInvariant | src/reports/services/aggregation.service.ts:178-192 | adding a constant to all scores keeps the trend |
| Aggregation.TrendMirrors | src/reports/services/aggregation.service.ts:178-192 | mirroring the scale swaps IMPROVING and DECLINING |
| Aggregation.ResolvePrimaryLearningAreas | src/reports/services/aggregation.service.ts:202-236 | the map holds for each activity the area of its first row |
| Aggregation.PrimaryAreaIsLeast | src/reports/services/aggregation.service.ts:202-236 | with rows ordered by name the primary area is the least area name of the activity |
| Aggregation.AggregateStudentPeriod | src/reports/services/aggregation.service.ts:62-139 | the grouping loop computes the aggregations of the period |
| Aggregation.PeriodConserves | src/reports/services/aggregation.service.ts:92-138 | the observation counts add up to the number of observations in the period |
| Aggregation.PeriodIsFaithful | src/reports/services/aggregation.service.ts:92-138 | each aggregation describes exactly its activity's observations of the period, each once, oldest first: their number, the mean, first and last of the scores there are, the trend of the scores in order, and the latest value, under the activity's name and primary area |
| Aggregation.PeriodListsActivities | src/reports/services/aggregation.service.ts:92-138 | every observed activity is listed, none twice, in order of area name, then activity name |
| Aggregation.PeriodOnScale | src/reports/services/aggregation.service.ts:146-151 | scores on the 0-100 scale give activity averages and an overall score on that scale |
| Aggregation.OverallIsMean | src/reports/services/aggregation.service.ts:146-151 | the overall score is the mean of the averages of the activities that have one, each weighing the same |
| Aggregation.MajorityByCounts | src/reports/services/aggregation.service.ts:157-169 | the overall trend is IMPROVING with more rising than falling activities, DECLINING with fewer, STABLE with as many, and null without any |
| Aggregation.MajorityPermutes | src/reports/services/aggregation.service.ts:157-169 | the overall trend does not depend on the order of the activities |
| Aggregation.MajorityFlips | src/reports/services/aggregation.service.ts:157-169 | swapping IMPROVING and DECLINING everywhere flips the overall trend |
| Snapshots.ReportSnapshotService.GenerateForStudent | src/reports/services/report-snapshot.service.ts:709-796 | a published or sent snapshot is a conflict; a failure in the transaction rolls back; otherwise the old snapshot with its items and receipts gives way to a draft with its items, which stays even when reading it back after the commit fails |
| Snapshots.ReportSnapshotService.GenerateBulk | src/reports/services/report-snapshot.service.ts:123-163 | the loop generates student by student, counting conflicts as skipped and collecting other failures |
| Snapshots.ReportSnapshotService.ReviewSnapshot | src/reports/services/report-snapshot.service.ts:499-520 | sets notes, reviewer, time and status, after the transition check |
| Snapshots.ReportSnapshotService.PublishSnapshot | src/reports/services/report-snapshot.service.ts:526-556 | stamps and publishes, and emits the published event |
| Snapshots.ReportSnapshotService.SendSnapshot | src/reports/services/report-snapshot.service.ts:558-587 | stamps and sends, and emits the sent event |
| Snapshots.ReportSnapshotService.MarkSnapshotAsRead | src/reports/services/report-snapshot.service.ts:314-353 | checks status, parent and guardianship in that order, then answers the old receipt or stores a new one |
| SnapshotAnswers.GenerateAnswers | src/reports/services/report-snapshot.service.ts:709-796 | a generation conflicts exactly with a report of the student and period that is out; a fault before the commit leaves everything as it was, one after it stores what a faultless one stores |
| SnapshotAnswers.WorkflowAnswers | src/reports/services/report-snapshot.service.ts:499-587 | for review, publication and sending: unknown ids are not found, other statuses bad requests, and otherwise exactly which columns of the one row and which events are written |
| SnapshotAnswers.ReadAnswers | src/reports/services/report-snapshot.service.ts:314-353 | a report is marked as read exactly when it is there, out, and about a child of the caller, the first that fails being the error; the first reading adds one receipt, later ones answer its time |
| SnapshotRuns.RunInv | src/reports/services/report-snapshot.service.ts:709-796 | in every reachable state: one snapshot per student and period, publishedAt and sentAt set as the status says, items adding up to totalObservations, receipts only for visible snapshots and one per parent, and each event at most once, in order |
| SnapshotRuns.PublishedIsForever | src/reports/services/report-snapshot.service.ts:719-738 | over any run a published snapshot stays with its figures, items and notes, and its status can only become SENT |
| SnapshotRuns.WorkflowAccepts | src/reports/services/report-snapshot.service.ts:62-73 | review is accepted exactly for DRAFT, publish for DRAFT or PENDING_REVIEW, send for PUBLISHED |
| SnapshotRuns.WorkflowWrites | src/reports/services/report-snapshot.service.ts:499-587 | a rejected step changes nothing; an accepted one writes notes, reviewer, status and times into one snapshot and keeps its figures, and later steps keep the notes and earlier times |
| BulkGeneration.GenerateFresh | src/reports/services/report-snapshot.service.ts:740-796 | a generation leaves the student exactly one snapshot for the period, a draft with the figures of the current observations |
| BulkGeneration.GenerateOthers | src/reports/services/report-snapshot.service.ts:709-796 | generation for one student leaves every other student's snapshots and items alone |
| BulkGeneration.BulkRun | src/reports/services/report-snapshot.service.ts:123-163 | whatever fails, generated plus skipped plus failed is the number of students, skipped are exactly those already published or sent, every student whose generation commits has exactly one snapshot, and one whose generation is rolled back keeps what there was |
| BulkGeneration.SecondRunChangesNoFigure | src/reports/services/report-snapshot.service.ts:123-163 | an immediate second run changes no figure of a student the first run served, whatever fails in either |
| WeeklyRun.GenerateForAllSchools | src/reports/services/report-scheduler.service.ts:81-124 | the loop over schools counts processed and failed ones; without a system user all fail |
| WeeklyRun.EveryPupilServed | src/reports/services/report-scheduler.service.ts:81-124 | whatever fails for single students or other schools, every pupil of a school that is not down is left with exactly one snapshot, or with what there was if the own generation was rolled back |
| WeeklyRun.OthersUntouched | src/reports/services/report-scheduler.service.ts:81-124 | a school that is down or not on the list keeps all snapshots of its pupils |
| WeeklyRun.SchoolsAccountedFor | src/reports/services/report-scheduler.service.ts:81-124 | processed plus failed is the number of schools, whatever fails |
| Scheduler.WindowShape | src/reports/services/report-scheduler.service.ts:132-151 | the window has seven days and ends before the run; it is Monday to Sunday exactly when the run is on a Sunday |
| Scheduler.WeeklyRunsTile | src/reports/services/report-scheduler.service.ts:132-151 | over any number of runs one week apart every day is covered by exactly one window |
| WeeklyHistory.StepUpToDate | src/reports/services/report-snapshot.service.ts:709-796 | no request makes a report that counts all observations of its period stale, unless it changes how many there are |
| WeeklyHistory.EachObservationReportedOnce | src/reports/services/report-scheduler.service.ts:81-151 | over any number of weekly runs with arbitrary requests in between, if for a pupil each run works and nothing is recorded late, every week has exactly one report, the reports together count every observation of the whole span, and each observation belongs to the week of exactly one |
| Receipts.UnreadPlusRead | src/reports/services/report-snapshot.service.ts:362-389 | in every reachable state the unread count plus the number of the parent's receipt rows for snapshots the parent can see is the number of those snapshots |
| Receipts.MarkingAsRead | src/reports/services/report-snapshot.service.ts:314-353 | the first reading lowers the unread count by exactly one, later ones change nothing |
| Receipts.OthersKeepTheirBadge | src/reports/services/report-snapshot.service.ts:314-389 | reading changes no other parent's unread count |
| Receipts.ReceiptIsForever | src/reports/services/report-snapshot.service.ts:719-762 | over any run no receipt is lost or restamped, although regeneration deletes receipts |
| Receipts.ReadingAgain | src/reports/services/report-snapshot.service.ts:337-353 | after any run a second reading answers the time of the first and changes nothing |
| Summaries.ComputeLearningAreaRollups | src/reports/serializers/snapshot.serializer.ts:239-285 | the grouping loop computes one rollup per area in order of appearance |
| Summaries.RollupsConserve | src/reports/serializers/snapshot.serializer.ts:239-285 | the rollups count every activity and observation once, no area twice, and every item's area is listed |
| Summaries.HeadlineMatchesRollups | src/reports/services/report-snapshot.service.ts:747-750 | in every reachable state the rollups of a report add up to its totalObservations |
| Summaries.RollupIsFaithful | src/reports/serializers/snapshot.serializer.ts:239-285 | a rollup tells exactly the items of its area: how many, what they count, the mean of their averages with its band, and the majority of their trends; its average stays on the scale |
| Summaries.GroupSnapshotItems | src/reports/utils/group-snapshot-items-by-snapshot.util.ts:7-22 | every item with a loaded snapshot lands, in order, under its snapshot and no other item does |
| Summaries.GetAdminWeeklySummary | src/reports/services/report-snapshot.service.ts:591-704 | the grouping loops compute the summary |
| Summaries.SummaryConserves | src/reports/services/report-snapshot.service.ts:621-690 | the activity rows and the learning-area rows each add up to totalObservations |
| Summaries.ActivityRowsTell | src/reports/services/report-snapshot.service.ts:621-668 | every activity observed in the window has exactly one row, by name, which tells its observations: number, mean score, band, name and primary area |
| Summaries.AreaRowsTell | src/reports/services/report-snapshot.service.ts:668-690 | every area of an activity row has exactly one row, by name, which tells its activity rows: the sum of their counts, the mean of their averages, and its band |
| Summaries.EveryPupilCounted | src/reports/services/report-snapshot.service.ts:604-704 | the pupils without activity are exactly those of whom nothing was recorded, the others are active, and the coverage is their share in per cent, rounded to the nearest; it reads 100 exactly when at most one in 200 is missing |
| Summaries.OneUnseenShowsFull | src/reports/services/report-snapshot.service.ts:695-704 | a school of 200 pupils with one never observed shows a coverage of 100 percent |
| Summaries.PupilsAddUpToSchool | src/reports/services/report-snapshot.service.ts:591-704 | the pupils' own totals for a window add up to the school's total |
| Summaries.BulkAgreesWithSummary | src/reports/services/report-snapshot.service.ts:123-163 | after a bulk run that is rolled back for nobody the snapshots' totals add up to the admin summary of the period |
| Calendar.TripleSurvivesIffReal | src/parent-access/services/parent-timeline.service.ts:103-125 | a year, month and day survive the trip through a date exactly when they are a date of the calendar |
| Calendar.EpochIsThursday | src/reports/services/report-scheduler.service.ts:133-137 | the day count puts 1970-01-01 on the day and weekday the clock of the program starts from |
| Timeline.CursorRoundTrip | src/parent-access/services/parent-timeline.service.ts:86-93 | every cursor printed reads back as the same date and pkid |
| Timeline.CursorAcceptsRealDates | src/parent-access/services/parent-timeline.service.ts:103-125 | a text is accepted exactly when it has the shape of a cursor and its date exists, leap years included |
| Timeline.PageFacts | src/parent-access/services/parent-timeline.service.ts:22-100 | a page is a strictly descending run of visible rows below the cursor; a null cursor means nothing is left |
| Timeline.PageTells | src/parent-access/services/parent-timeline.service.ts:22-100 | a page holds the student's visible rows of the school, and of the day asked for, behind the cursor, newest first and as many as fit; all others come after each of them; and there is a cursor naming the last row exactly when more rows are left |
| Timeline.WalkDescends | src/parent-access/services/parent-timeline.service.ts:22-100 | whatever is written between the pages, a walk comes out strictly descending in date and pkid |
| Timeline.WalkNoDuplicates | src/parent-access/services/parent-timeline.service.ts:22-100 | no report is returned twice |
| Timeline.WalkComplete | src/parent-access/services/parent-timeline.service.ts:22-100 | a report visible throughout a finished walk is returned exactly once |
| Timeline.QuietWalk | src/parent-access/services/parent-timeline.service.ts:22-100 | without writes the pages join up to the whole feed and the last cursor is null |
| Dashboard.GroupAreaScores | src/parent-access/services/parent-dashboard.service.ts:188-214 | the grouping loop gives each area the mean of its scored items |
| Dashboard.CollectSeries | src/parent-access/services/parent-dashboard.service.ts:145-159 | the nested loops collect each activity's scores over the recent snapshots, in order, zero where there is none |
| Dashboard.ColorFrom | src/parent-access/services/parent-dashboard.service.ts:224-229 | the hash loop over the UTF-16 units of a name, with its 32-bit shift, gives its hue |
| Dashboard.HashStep | src/parent-access/services/parent-dashboard.service.ts:224-226 | each unit adds to the hash what the shift by five makes of it, as a signed 32-bit number, less the hash itself |
| Dashboard.HashInBase31 | src/parent-access/services/parent-dashboard.service.ts:224-226 | in 32 bits the hash is the number its units spell in base 31 |
| Dashboard.HueTells | src/parent-access/services/parent-dashboard.service.ts:227-228 | the hue is the distance of the hash from zero round a circle of 360 |
| Dashboard.ComputeLiveDashboard | src/parent-access/services/parent-dashboard.service.ts:52-186 | the live answer for one caller |
| Dashboard.LiveTells | src/parent-access/services/parent-dashboard.service.ts:52-186 | over the reports that count, in period order, the live answer shows score and time of the last; for exactly its areas their average there, their hue, and a trend that is IMPROVING exactly when the average exceeds that in the last report but one by more than five, DECLINING the reverse, and absent when either is missing; and the activity cards of the last eight |
| Dashboard.DeltaTrendMirrors | src/parent-access/services/parent-dashboard.service.ts:216-222 | swapping current and previous score gives the opposite trend |
| Dashboard.TrendRulesDifferAtFive | src/parent-access/services/parent-dashboard.service.ts:216-222 | the dashboard's rule and the report's rule agree on two scores exactly when they do not differ by five |
| Dashboard.AreasMatchRollups | src/parent-access/services/parent-dashboard.service.ts:188-214 | the dashboard shows the areas of the report's rollups with the same averages |
| Dashboard.CardsMatchActivities | src/parent-access/services/parent-dashboard.service.ts:145-174 | no activity has two cards; a card shows name and area of its first item, a line through the scores of its last eight items with 0 for none, the last point as its score, and the trend from the last point but one; all on the scale |
| Dashboard.EveryActivityHasCard | src/parent-access/services/parent-dashboard.service.ts:145-174 | every activity of the recent reports has a card |
| Dashboard.GuardedCallersAgree | src/auth/guards/parent.guard.ts:57-74 | callers who pass the guard all see the same dashboard |
| Dashboard.GenerateKeepsShelf | src/reports/services/report-snapshot.service.ts:709-796 | generation never changes a live dashboard |
| Dashboard.WorkflowKeepsShelf | src/reports/services/report-snapshot.service.ts:499-587 | review, and publishing or sending another student's report, never change a live dashboard |
| Dashboard.LiveShowsLatest | src/parent-access/services/parent-dashboard.service.ts:100-139 | the dashboard shows the score, time and area averages of a visible report of the type and weeks asked for that no other one follows |
| DashboardCache.KeysDiffer | src/parent-access/services/dashboard-cache.service.ts:57-59 | two requests share a key only when they ask the same of the same id text |
| DashboardCache.PatternIsExact | src/parent-access/services/dashboard-cache.service.ts:61-67 | the student pattern matches exactly the keys of that id text |
| DashboardCache.ParentDashboardService.GetDashboard | src/parent-access/services/parent-dashboard.service.ts:27-50 | serves a live entry or computes and stores one; cache errors only cost the shortcut |
| DashboardCache.ParentDashboardService.InvalidateStudent | src/parent-access/services/dashboard-cache.service.ts:82-102 | after the scan loop exactly the keys of the student and the legacy key are gone |
| DashboardCache.StepAnnounces | src/parent-access/services/dashboard-cache-invalidator.service.ts:16-27 | every request leaves a student's dashboard alone or emits an event for that student |
| DashboardCache.ServedIsLive | src/parent-access/services/parent-dashboard.service.ts:33-50 | in every state reached with the listeners heard, a dashboard served for an id in its stored spelling is what would be computed on the current tables with the clock of less than an hour ago |
| DashboardCache.StalenessIsBounded | src/parent-access/services/dashboard-cache.service.ts:74-76 | however the id is spelled and whichever invalidations are lost, a served dashboard was the live one at a point of the run less than an hour ago |
| DashboardCache.OnlyStoredSpellingRefreshes | src/parent-access/services/dashboard-cache-invalidator.service.ts:16-27 | after publish or send an entry is dropped exactly when its id is spelled as stored |
| DashboardCache.CapitalsServeStale | src/parent-access/services/parent-dashboard.service.ts:33-50 | a run in which an id in capitals is served an empty dashboard after publication |
| DashboardCache.LostInvalidationServesStale | src/parent-access/services/dashboard-cache-invalidator.service.ts:16-27 | a run in which an id spelled as stored is served an empty dashboard after publication because the invalidation is lost |
| Authentication.AuthService.RevokeAllSessions | src/auth/auth.service.ts:205-213 | exactly the user's open sessions are stamped as revoked |
| Authentication.AuthService.IssueTokenPair | src/auth/auth.service.ts:165-203 | one open session and a pair of tokens that name it and carry the current version |
| Authentication.AuthService.Login | src/auth/auth.service.ts:241-354 | unknown user, lock, wrong password, inactive user, sending a one-time code and success, in that order, with their effects on counter, lock, version, code and sessions |
| Authentication.AuthService.ValidateOtp | src/auth/auth.service.ts:356-395 | unknown user, no code ever sent, wrong or used code and late code are refused in that order; a right one is used up and opens a session |
| Authentication.AuthService.AcceptInvite | src/auth/auth.service.ts:513-557 | a right invitation sets the password, activates the first membership the user is invited to, and opens a session |
| Authentication.AuthService.RefreshToken | src/auth/auth.service.ts:563-616 | reuse, expiry, inactivity, inactive owner and rotation, in that order |
| Authentication.AuthService.RevokeSession | src/auth/auth.service.ts:664-679 | only an open session of the caller is revoked |
| Authentication.AuthService.Logout | src/auth/auth.service.ts:685-695 | the session of the token is revoked if it is open |
| Authentication.AuthService.LogoutAll | src/auth/auth.service.ts:697-707 | version up by one and all sessions revoked |
| Authentication.AuthService.RequestPasswordReset | src/auth/auth.service.ts:404-436 | a fresh nonce replaces whatever nonce the user had |
| Authentication.AuthService.ResetPassword | src/auth/auth.service.ts:444-486 | invalid, used and expired nonces are refused; otherwise the nonce is used up and everything revoked |
| Authentication.AuthService.ChangePassword | src/auth/auth.service.ts:488-507 | the right current password changes it and revokes everything |
| AuthRuns.RunInv | src/auth/auth.service.ts:165-186 | sessions are never dropped or reopened, versions never fall, tokens never repeat and memberships only go from invited to active, in every run |
| AuthRuns.OneOpenSessionPerLogin | src/auth/auth.service.ts:601-616 | in every reachable state each login has at most one open session |
| AuthRuns.RefreshAccepts | src/auth/auth.service.ts:563-616 | a token is accepted exactly when its session is open, at most seven days old and owned by an active user; the thirty-day check never decides |
| AuthRuns.AcceptedAtMostOnce | src/auth/auth.service.ts:601-616 | each refresh token is accepted at most once |
| AuthRuns.ReuseIsDetected | src/auth/auth.service.ts:578-583 | whenever a rotated token turns up again it is refused and its owner has no open session left |
| AuthRuns.RevokesEverything | src/auth/auth.service.ts:697-707 | logging out everywhere, changing or resetting the password and the locking failure close all sessions and raise the version |
| AuthRuns.RevocationIsForever | src/auth/strategies/jwt.strategy.ts:24-42 | after such a request no token handed out before passes any check at any later point of any run |
| AuthRuns.ClosesNoOther | src/auth/auth.service.ts:664-695 | logging out one session or revoking it closes that session and changes nothing else, not even what its access tokens are good for |
| AuthRuns.ClosedForever | src/auth/auth.service.ts:664-695 | a refresh token handed out before is not accepted at any point of any run after its session was closed that way |
| AuthRuns.NonceWorksOnce | src/auth/auth.service.ts:444-486 | each nonce changes a password at most once |
| AuthRuns.NewerNonceKillsOlder | src/auth/auth.service.ts:404-436 | a newer reset request kills the older nonce for good |
| AuthRuns.NonceExpires | src/auth/auth.service.ts:460-465 | a nonce changes no password more than an hour after it was sent, in any run |
| AuthRuns.CodeAccepted | src/auth/auth.service.ts:356-395 | over any run a code opens a session exactly when a login with the right password asked for that very code at most five minutes ago and since then no code has opened a session and none has been sent; so each code works at most once |
| AuthRuns.ActivatedByInvitation | src/auth/auth.service.ts:538-549 | over any run an invited membership changes only by an accepted invitation of its user, which makes it active and stamps its time |
| AuthRuns.LoginAccepts | src/auth/auth.service.ts:241-354 | tokens are handed out exactly for a known, unlocked, active account without second factor and the right password, and a code asked for exactly with one |
| AuthRuns.ResetTakesEffect | src/auth/auth.service.ts:444-486 | after a reset the next login is decided by the new password alone, unless the account is locked or inactive |
| AuthHistory.EveryAnswer | src/auth/auth.service.ts:241-707 | for every request and state exactly when it is accepted and which error it gets otherwise; a refusal leaves the tables alone, except that failed logins count and refused refreshes may close sessions |
| AuthHistory.CredentialsMove | src/auth/auth.service.ts:444-557 | a password changes exactly by an accepted reset, change or invitation, and a token version rises by one exactly by the requests that revoke everything |
| AuthHistory.LastPasswordDecides | src/auth/auth.service.ts:241-354 | over any run a login of an unlocked active user, and the user's own change, is accepted exactly with the password set last |
| AuthHistory.ChangeTakesEffect | src/auth/auth.service.ts:488-507 | after an accepted change the next login is decided by the new password alone, unless the account is locked or inactive |
| AuthHistory.AccessPassesExactly | src/auth/strategies/jwt.strategy.ts:24-42 | an access token passes at a later point of any run exactly when its user is active then and no request since revoked everything; without a version exactly when the user is active |
| AuthHistory.SessionMoves | src/auth/auth.service.ts:563-695 | a session is closed exactly by presenting its token, logging it out, revoking it, whatever revokes everything of its user, and presenting a closed token of the same user, and changes in no other way |
| AuthHistory.RefreshAcceptedExactly | src/auth/auth.service.ts:563-616 | a refresh token is accepted at a later point of any run exactly when it is at most seven days old, its user is active then and nothing since closed its session |
| AuthHistory.NonceAccepted | src/auth/auth.service.ts:404-486 | over any run a reset is accepted exactly when its nonce was sent at most an hour ago, has not been used, and no newer one was asked for |
| AuthHistory.MembershipsMove | src/auth/auth.service.ts:538-549 | an accepted invitation activates exactly the first membership the user is invited to, and no other request changes a membership |
| Lockout.RespondCounts | src/auth/auth.service.ts:262-318 | a wrong password counts, from the fifth on it locks for 15 minutes, a right one of an active user clears counter and lock, and nothing else touches either |
| Lockout.LocksExactly | src/auth/auth.service.ts:262-318 | over any run a wrong password locks the account, for 15 minutes, exactly when it is at least the fifth since the last success, and exactly then it revokes everything; after a success there is no lock and the count starts anew |
| Lockout.RateBound | src/auth/auth.service.ts:262-318 | without a successful login the wrong comparisons number at most 5 plus one per 15 minutes since the fifth |
| Lockout.LockRevokes | src/auth/auth.service.ts:268-277 | every wrong comparison from the fifth on revokes everything the user holds |
| Locations.FlattenNested | src/config/seeds/rwanda-location-seeder.service.ts:201-238 | the five nested loops with their counters compute the flat rows |
| Locations.FlattenLists | src/config/seeds/rwanda-location-seeder.service.ts:201-238 | the rows are the dataset's villages in reading order with their ancestors' names |
| Locations.FlattenAgrees | src/config/seeds/rwanda-location-seeder.service.ts:201-238 | every row's codes lead to the nodes it names, and village codes count up |
| LocationSeeder.BuildMaps | src/config/seeds/rwanda-location-seeder.service.ts:81-104 | each map holds under a code the name and parent code of the last row with it, in order of first appearance |
| LocationSeeder.Repository.ChunkSave | src/config/seeds/rwanda-location-seeder.service.ts:264-276 | slice after slice is saved up to the first one the table refuses; the results line up with the saved rows |
| LocationSeeder.ChunksStored | src/config/seeds/rwanda-location-seeder.service.ts:264-276 | whatever the chunk size, all rows are saved once and in order, or those of the slices before the one with the first name that is too long |
| LocationSeeder.SeedLocations | src/config/seeds/rwanda-location-seeder.service.ts:59-168 | the five tables after seeding, with parents found by position, and what is left of them when a table refuses a name |
| LocationSeeder.StopsHalfWay | src/config/seeds/rwanda-location-seeder.service.ts:106-168 | where a seeding stops and what it leaves: provinces and districts are taken whole or not at all, the lower tables keep the whole slices before the first name that is too long, tables above are complete and those below untouched |
| LocationSeeder.SavedChains | src/config/seeds/rwanda-location-seeder.service.ts:106-163 | for any flat rows, each saved village leads to the ancestors found through the last row with its code and then, level by level, the last row with each parent code, trimmed |
| LocationSeeder.FlattenThenSeed | src/config/seeds/rwanda-location-seeder.service.ts:81-163 | for any nested dataset that goes through, the saved villages with their ancestors are exactly the dataset's villages with theirs, as often as they occur |
| LocationSeeder.SeedsExactlyWhenNamesDiffer | src/migrations/1772208000000-create-rwanda-location-tables.ts:10-67 | any rows are seeded into empty tables exactly when no two province codes and no two district codes have last rows with the same trimmed name and every trimmed name in the last row of a code, of whatever level, has at most 100 characters |
| LocationSeeder.StoppedForGood | src/config/seeds/rwanda-location-seeder.service.ts:59-168 | a seeding that stops half way stops again on every further run with the same rows and changes nothing |
| LocationSeeder.TwoEasts | src/config/seeds/rwanda-location-seeder.service.ts:106-113 | a dataset with two provinces called East is not seeded |
| LocationSeeder.LongCell | src/migrations/1772208000000-create-rwanda-location-tables.ts:43-54 | a cell name of 101 characters leaves a province, a district and a sector without cells and villages, also after a second run |
| ListFilter.BuildFilter | src/common/services/list-filter.service.ts:58-73 | walking the keys from object to object builds the nested condition of the dotted field |
| ListFilter.FilterPage | src/common/services/list-filter.service.ts:37-94 | the options after the rewrite, and the page with its links, or no answer when the database refuses the clause |
| ListFilter.RewriteExactly | src/common/services/list-filter.service.ts:55-76 | exactly which rows a rewritten clause selects, for any base (none, an object, a list) and any fields |
| ListFilter.SearchKeepsScope | src/common/services/list-filter.service.ts:55-76 | without a key collision a row is selected exactly when it meets the base and matches some field |
| ListFilter.SearchAnswered | src/common/services/list-filter.service.ts:55-76 | a search is answered exactly when every search field leads through relations to a text column and the rest of the base is accepted, for any base, fields and table |
| ListFilter.EveryListKeepsScope | src/common/services/list-filter.service.ts:55-76 | the search of every list of the program selects exactly the rows that meet the base and match some field; it matters for the lists the database answers, which ListsAnswerExceptTwo tells |
| ListFilter.ListsAnswerExceptTwo | src/common/services/list-filter.service.ts:65-72 | of the lists of the program a search is answered by all but two, students and classrooms, in which every search is refused |
| ListFilter.StudentSearchRefused | src/students/students.service.ts:71-90 | whatever is searched for on whatever page, the list of students gives no answer |
| ListFilter.ClassroomSearchRefused | src/classrooms/classrooms.service.ts:62-80 | whatever is searched for on whatever page, the list of classrooms gives no answer |
| ListFilter.CollisionLosesScope | src/common/services/list-filter.service.ts:72 | a search by school name in a list scoped to one school selects a row of another school |
| ListFilter.PlainList | src/common/services/list-filter.service.ts:53-76 | without a search a list shows exactly the rows that meet its base |
| ListFilter.PageTells | src/common/services/list-filter.service.ts:78-94 | a page holds the rows from its skip on, at most the limit, with their count, the least number of pages that hold all, and links to the pages there are on either side; a refused clause gives none |
| ListFilter.NextPageIffBelow | src/common/services/list-filter.service.ts:83-93 | there is a next page exactly when the page is below the page count |
| ListFilter.PageWalkCovers | src/common/services/list-filter.service.ts:78-93 | following nextPage over an unchanging list shows every row once, in order, and ends on the last page |
| EndToEnd.WalkUnderWrites | src/parent-access/services/parent-timeline.service.ts:22-100 | the walk laws hold for tables that recording, correcting, hiding, deleting and enrolling produce between the pages |
| EndToEnd.RecordedScoresOnScale | src/reports/services/daily-report.service.ts:79-98 | every score in every reachable table is on the 0-100 scale |
| EndToEnd.SnapshotsOnScale | src/reports/services/aggregation.service.ts:146-192 | in every reachable state every figure of every report is on the 0-100 scale |
| EndToEnd.ItemsTellThePeriod | src/reports/services/report-snapshot.service.ts:740-796 | every item of a fresh report tells, oldest first, exactly the student's observations of its activity in the period: their number, first, last and mean score as stored to two decimals, the trend of the scores in order, and the latest value |
| EndToEnd.ReportTellsThePeriod | src/reports/services/report-snapshot.service.ts:709-796 | a generation that succeeds leaves one report of the student and period, an untouched draft: it counts the observations of the period, has one item for each activity observed, by area and name, each telling its part, and shows the mean of the parts' means and the vote of their trends |
| EndToEnd.SummaryOverRecorded | src/reports/services/report-snapshot.service.ts:591-704 | over recorded observations the admin summary counts every pupil once and agrees with the pupils' own reports |

## Left out

- Floating point: scores are reals, so the binary rounding of sums, quotients, Math.round and the numbers read from texts is not modelled; the rounding of stored figures to DECIMAL(5,2) and the overflow to Infinity are.
- Whole numbers are exact, also beyond 2^53 (cursor pkids, the hash of a name).
- Letter case: upper- and lower-casing covers ASCII letters only.
- Locale order: localeCompare and the database collation are an arbitrary ranking of names; the zzz sentinel is kept as a name.
- Order of rows: rows a query leaves unordered, or with equal sort keys, come in pkid order (equal periodStart on the dashboard, items of a snapshot, equal createdAt of observations).
- Interleavings: two requests never overlap, so a publication during a regeneration, two refreshes of one token at once, and a cache write that lands after an invalidation are not modelled; listeners finish with the request that emitted their event, or not at all.
- DashboardCache.ServedIsLive: needs the id spelled as stored and every listener to reach the cache, because otherwise entries go stale (DashboardCache.CapitalsServeStale, DashboardCache.LostInvalidationServesStale), for an hour at most; the clock is taken in UTC, so daylight-saving shifts of the cutoff are not modelled.
- Dashboard: `updatedAt` is not modelled; by SnapshotRuns.RunInv a visible snapshot always has the publishedAt that is shown instead.
- DashboardCache: `weeks` is always given, as its default makes it; the scan is any list of replies that is complete and matches, which is what the cache server promises.
- DailyReports: a database error in the middle of a batch, which rolls the batch back, is not modelled.
- Timeline: the learning areas attached to each row, media and activity details of the answer.
- Public ids: snapshots, reports, users and sessions are known by their pkid; only student ids are text, where their spelling matters. Rotation and revocation name a session by its position in the table.
- Authentication.AuthService.IssueTokenPair: the login a session descends from is passed along as history; the program does not store it.
- Authentication.AuthService.ValidateOtp: which code the generator draws is a parameter of the login; mailing it, the flag that the address is verified and the flag of a default password are not modelled.
- AuthRuns: deleting a user is no request of the runs. The service first asks for a membership of the user, and the foreign key of the memberships (src/migrations/1772294400000-branch-architecture.ts:409-411) refuses to delete a user who has one.
- AuthRuns.RevocationIsForever: is about token pairs from logins, codes, invitations and rotations; tokens signed without a version (invitations, re-authentication) are outside it. The fifteen-minute life of an access token is not needed and not modelled.
- bcrypt, JWT signatures, mail, push messages, audit logs and Redis connections: calls to things outside.
- Curriculum changes: an activity's name in an item is the one at generation time; for the reports, editing templates and learning areas is any change between requests. Activities and students are created during the runs of DailyReports; the program has no service that edits or deletes them.
- ListFilter: the pattern match of the database is a parameter, and pages are taken over one fixed order. Of what the database can refuse, unknown columns and relations and patterns over columns that are no text are modelled; column types are the declared ones.
- LocationSeeder: of what the database can refuse in a name only the repeated name and the length are modelled, not U+0000 or a lost connection; when a list has both, the length is reported. A row stands for its position, so the numbers the failed inserts use up do not appear.
- Locations: a missing list of districts, sectors, cells or villages is an empty list; downloading the dataset, its file, and telling its two forms apart by the first record are not modelled, the seeding starts from flat rows.
- Student trends chart, report lists, role and guardian checks of list endpoints: they repeat the groupings and one-branch checks modelled above.
- School, branch, staff, role, permission and invitation management, location lookups and test-data seeding: easy members only.
