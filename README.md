# wb-exam-quest, modelled in Dafny

This project models the logic inside the pages of wb-exam-quest, a study site for West
Bengal university exams. The site offers past question papers, timed mock tests, a dashboard, a
leaderboard and an admin panel. The flow of each page is recast as Dafny state and functions.
Every backend query, insert and upload becomes a parameter holding its answer.

- `MockTestDetail`: the timed attempt. `Attempt` is a class holding the page's five state
  fields (started, submitted, current question, answer slots, seconds left). It has one
  method per handler, a `Tick` method for the once-a-second timer, and the scoring loop.
- `BulkImport`: the CSV line/comma parser, the mapping of parsed JSON into question
  records, and `PaperUpload`. `PaperUpload` is the queue of dropped PDFs together with its
  upload loop.
- `Dashboard`: the average and best score, total time and hours, the 30-day streak (a
  loop), the last-10 trend, the subject map (a loop over a map) and the recent list.
- `Admin`: access gating, the checks behind the three add forms, the role join, the stats
  defaults, the role-assignment messages, and `AdminPage`, which holds the form and dialog
  state.
- `Papers`, `MockTests`, `Leaderboard`, `BottomNav`: search, filters, de-duplicated tabs,
  the podium and rank labels, and the visibility of navigation links.
- `PdfViewer`: a class with the zoom and rotation fields and their three buttons.
- Shared modules:
  - `Seqs`: filter, subsequence, de-duplication, counting.
  - `Text`: ASCII lower case, substring, split/join, the JavaScript whitespace set, `trim`,
    `parseInt`, decimal printing.
  - `Scoring`: `Math.round` on exact reals, percentages, colour bands.
  - `Wrappers`: `Option` and `Result`.

The model follows the code as it is written:
- The test page uses one fixed sample question set for every test and fetches nothing per
  test. So `Attempt` takes its questions as a constructor argument.
- No attempt is saved anywhere. Submitting only changes page state.
- The percentage divides by the number of questions with no guard. `CalculateScore`
  therefore requires at least one question.
- "Retake" goes back to the start screen with everything cleared. It does not restart the
  clock at once.

## Model

| member | source | states |
|---|---|---|
| MockTestDetail.FindTest | src/pages/MockTestDetail.tsx:14 | None exactly when no test has the id; otherwise the first test with that id |
| MockTestDetail.CorrectUpToIsSize | src/pages/MockTestDetail.tsx:69-75 | the running count over the first k slots is the number of positions among them whose answer equals that question's key |
| MockTestDetail.CorrectCountIsSize | src/pages/MockTestDetail.tsx:69-75 | the score is the size of the set of correctly answered positions |
| MockTestDetail.CorrectCountUpdate | src/pages/MockTestDetail.tsx:45-49 | rewriting one slot changes the score only by that slot's own contribution (slot isolation) |
| MockTestDetail.BlankScoresZero | src/pages/MockTestDetail.tsx:71-75 | an unanswered (null) slot never counts; all-blank answers score 0 |
| MockTestDetail.KeyScoresAll | src/pages/MockTestDetail.tsx:69-75 | answering with the key everywhere scores every question |
| MockTestDetail.ReviewMarks | src/pages/MockTestDetail.tsx:149-165 | one review mark per question, ticked exactly when the answer equals the key |
| MockTestDetail.ReviewAgreesWithScore | src/pages/MockTestDetail.tsx:149-165 | the ticks in the answer review are as many as the score's correct count |
| MockTestDetail.FormatTime | src/pages/MockTestDetail.tsx:63-67 | the clock text has at least four characters with the colon third from the end |
| MockTestDetail.PadStart | src/pages/MockTestDetail.tsx:66 | `padStart`: the result has the target width (or the input's length); it is fill characters followed by the input |
| MockTestDetail.FormatTimeReadsBack | src/pages/MockTestDetail.tsx:63-67 | the clock splits at ':' into minutes and two-digit seconds; the seconds are below 60 and minutes*60 + seconds is the input |
| MockTestDetail.Countdown | src/pages/MockTestDetail.tsx:24-37 | k seconds of a running test with t seconds left leave t-k unsubmitted for k < t; after t seconds the clock is 0 and the test is submitted |
| MockTestDetail.AfterSubmitNothingMoves | src/pages/MockTestDetail.tsx:25 | once submitted, further ticks change neither the clock nor the submitted flag |
| MockTestDetail.PreviousIndex | src/pages/MockTestDetail.tsx:305 | `max(0, q-1)`: one back, never below 0 |
| MockTestDetail.NextIndex | src/pages/MockTestDetail.tsx:318 | `min(n-1, q+1)`: one on, never past the last question |
| MockTestDetail.StartMinutes | src/pages/MockTestDetail.tsx:41 | `duration \|\| 10`: the duration when it is non-zero, 10 for 0; positive exactly when the duration is not negative |
| MockTestDetail.Attempt.CurrentScreen | src/pages/MockTestDetail.tsx:98-99 | results exactly when submitted, the start screen exactly when neither started nor submitted |
| MockTestDetail.Attempt.constructor | src/pages/MockTestDetail.tsx:16-22 | not started, not submitted, question 0, no slots, no time |
| MockTestDetail.Attempt.StartTest | src/pages/MockTestDetail.tsx:39-43 | started, `StartMinutes(duration)*60` seconds on the clock, one empty slot per question |
| MockTestDetail.Attempt.SelectAnswer | src/pages/MockTestDetail.tsx:45-49 | only the current slot changes, to the chosen option; the length is kept |
| MockTestDetail.Attempt.SubmitTest | src/pages/MockTestDetail.tsx:51-53 | only the submitted flag changes, and it becomes true; a second call changes nothing |
| MockTestDetail.Attempt.RetakeTest | src/pages/MockTestDetail.tsx:55-61 | all five fields back to their initial values |
| MockTestDetail.Attempt.Tick | src/pages/MockTestDetail.tsx:24-37 | one second: moves only while started, unsubmitted and with time; at 1 second or less it stops at 0 and submits; a running test never sits at 0 (the class invariant) |
| MockTestDetail.Attempt.Previous | src/pages/MockTestDetail.tsx:305 | the current question becomes `PreviousIndex`, and stays a valid index |
| MockTestDetail.Attempt.Next | src/pages/MockTestDetail.tsx:318 | the current question becomes `NextIndex`, and stays a valid index |
| MockTestDetail.Attempt.Jump | src/pages/MockTestDetail.tsx:331-334 | the navigator sets the current question to any index in range |
| MockTestDetail.Attempt.CalculateScore | src/pages/MockTestDetail.tsx:69-82 | the loop's count equals the correct-position count; correct + wrong = total; the percentage is the rounded share, in [0, 100] |
| Scoring.Round | src/pages/MockTestDetail.tsx:80 | `Math.round`: the integer within half a unit, halves rounded up |
| Scoring.RoundMonotone | src/pages/Dashboard.tsx:94 | rounding never reverses an order |
| Scoring.RoundedPercent | src/pages/MockTestDetail.tsx:80 | the rounded percentage of part in whole lies in [0, 100]; it is 0 for nothing right and 100 for everything right |
| Scoring.RoundedPercentMonotone | src/pages/MockTestDetail.tsx:80 | more correct answers never give a lower percentage |
| Scoring.BandOf | src/pages/Dashboard.tsx:290 | success exactly at 70 and above, warning exactly in [40, 70), destructive exactly below 40 |
| Scoring.BandMonotone | src/pages/MockTestDetail.tsx:109 | a higher score never lands in a worse band |
| Scoring.JsPercent | src/pages/Dashboard.tsx:94 | `part / whole * 100` is a number exactly when there is a whole (then the exact percentage), `NaN` exactly for 0 over 0, `Infinity` exactly for more than 0 over 0 |
| Scoring.JsRound | src/pages/Dashboard.tsx:94 | `Math.round` rounds a number and keeps `NaN` and `Infinity` |
| Scoring.JsBandOf | src/pages/Dashboard.tsx:290 | the band of a number is `BandOf`; `NaN` fails both comparisons and is destructive; `Infinity` passes and is success |
| MockTests.SubjectTabs | src/pages/MockTests.tsx:18 | the tabs have no duplicates, hold every test's subject and nothing else, and follow first-appearance order |
| MockTests.FilteredTests | src/pages/MockTests.tsx:24-29 | an order-preserving subsequence of the tests holding every matching test, as often as it occurs, and only those |
| MockTests.AllTabEmptyQueryShowsAll | src/pages/MockTests.tsx:25-29 | tab 'all' with an empty search lists every test |
| MockTests.EmptyStateIff | src/pages/MockTests.tsx:113 | the empty-state message shows exactly when no test matches |
| BulkImport.StripQuotes | src/components/admin/BulkImport.tsx:284 | each outer quote is removed on its own: a leading quote, a trailing quote, or both when the field is wrapped (a lone `"` becomes empty); a field without outer quotes is unchanged |
| BulkImport.StripQuotesWrapped | src/components/admin/BulkImport.tsx:284 | a quoted field loses exactly its two quotes |
| BulkImport.Columns | src/components/admin/BulkImport.tsx:284 | one cleaned column per comma-separated piece, with no quote awareness |
| BulkImport.ParseCsvRowFields | src/components/admin/BulkImport.tsx:285-290 | text is column 0; options are the non-empty columns 1-4 in order (0 to 4 of them), each repeated as often as among those columns; the answer is the leading integer of column 5 or 0; the explanation is column 6 or '' |
| BulkImport.QuestionOfColumnsFields | src/components/admin/BulkImport.tsx:286-290 | the same reading stated on the cleaned columns: text, the non-empty options of columns 1-4 (each kept as often as it occurs, none empty), the answer or 0, the explanation or '' |
| BulkImport.ParseCsv | src/components/admin/BulkImport.tsx:276-283 | refused exactly when fewer than two non-empty lines remain; otherwise one question per line after the header, in order |
| BulkImport.ParseRows | src/components/admin/BulkImport.tsx:283-291 | one question per line, in the lines' order |
| BulkImport.CleanPlainField | src/components/admin/BulkImport.tsx:284 | a field with no outer whitespace or quotes survives cleaning |
| BulkImport.ColumnsOfPlainFields | src/components/admin/BulkImport.tsx:284 | joining plain fields with commas and splitting again gives the fields back |
| BulkImport.SevenPlainColumns | src/components/admin/BulkImport.tsx:284 | seven plain fields joined by commas split back into those seven columns |
| BulkImport.CsvRowRoundTrip | src/components/admin/BulkImport.tsx:283-290 | a row written from plain fields and a number parses back to its text, non-empty options, answer and explanation |
| BulkImport.Or | src/components/admin/BulkImport.tsx:248 | `a \|\| b`: a when truthy, otherwise b |
| BulkImport.Coalesce | src/components/admin/BulkImport.tsx:250 | `a ?? b`: a unless missing or null |
| BulkImport.RecordOf | src/components/admin/BulkImport.tsx:246-253 | the record has the test id and order index i; text falls back to `question`; the answer defaults to 0 only for missing or null; a falsy explanation becomes null |
| BulkImport.FalsyAnswerKept | src/components/admin/BulkImport.tsx:250 | an answer of 0 or false is kept, not replaced |
| BulkImport.PrepareImport | src/components/admin/BulkImport.tsx:230-253 | invalid JSON, a non-array or an empty array is refused before any record is built; a null item crashes the map; otherwise record i comes from item i |
| BulkImport.HandleImport | src/components/admin/BulkImport.tsx:229-266 | a refusal is reported with its reason; prepared records with an insert error report that error; prepared records with a clean insert report exactly one imported record per item; an import is reported only after a clean insert of a non-empty list |
| BulkImport.CanImport | src/components/admin/BulkImport.tsx:334 | the Import button is enabled exactly when no import is running and the text holds a character that is not whitespace |
| BulkImport.CsvQuestionRecord | src/components/admin/BulkImport.tsx:246-253 | one CSV question read back as a record keeps its order index, its text (or falls back to the absent `question` member when empty), its options as a string array in order, its answer, and its explanation or null |
| BulkImport.CsvThroughImport | src/components/admin/BulkImport.tsx:239-253 | a non-empty list of CSV questions fed to the JSON import is accepted, one record per question, keeping order, text, options (the same strings in the same order), answer and explanation |
| BulkImport.PdfsOf | src/components/admin/BulkImport.tsx:44-46 | only PDFs pass, every PDF passes as often as it was dropped, and the order is kept |
| BulkImport.RemoveAt | src/components/admin/BulkImport.tsx:59-61 | removing entry i deletes exactly that entry, keeping the others in order; an index outside the list changes nothing |
| BulkImport.StoragePathJoined | src/components/admin/BulkImport.tsx:74 | the storage path is university, course, subject and `<timestamp>_<file name>` joined by '/' |
| BulkImport.StoragePathParts | src/components/admin/BulkImport.tsx:74 | the storage path splits at '/' into university, course, subject and `<timestamp>_<file name>` |
| BulkImport.StoredCount | src/components/admin/BulkImport.tsx:101-105 | the number of stored files is at most the number of files |
| BulkImport.UploadEach | src/components/admin/BulkImport.tsx:73-106 | every queued file gets its storage path, in queue order; the successes are the files whose storage call and insert both succeeded, and successes plus failures are the number of files |
| BulkImport.UploadMessageReadsBack | src/components/admin/BulkImport.tsx:110 | the upload toast starts with the success count; it holds a comma exactly when some file failed, and the failure count follows `, ` |
| BulkImport.PaperUpload.constructor | src/components/admin/BulkImport.tsx:31-39 | an empty queue, not uploading, an empty form for the given year |
| BulkImport.PaperUpload.Drop | src/components/admin/BulkImport.tsx:41-48 | the dropped PDFs are appended after the queued files; the queue holds only PDFs |
| BulkImport.PaperUpload.Select | src/components/admin/BulkImport.tsx:50-57 | the same as a drop when the input has files, otherwise nothing changes |
| BulkImport.PaperUpload.RemoveFile | src/components/admin/BulkImport.tsx:59-61 | the queue becomes `RemoveAt(queue, i)` |
| BulkImport.PaperUpload.Upload | src/components/admin/BulkImport.tsx:63-111 | a refused outcome with nothing changed and no summary toast exactly when a field is empty or the queue is empty; otherwise each file adds one to success or to failure, success counts the stored files, one path per file, the queue is emptied, the uploading flag is cleared and the toast is `UploadMessage(success, failed)` |
| Dashboard.PercentMax | src/pages/Dashboard.tsx:97 | when the maximum is a number, every attempt's percentage is a number no larger, and one attempt attains it |
| Dashboard.AttemptValue | src/pages/Dashboard.tsx:94 | `score / total_questions * 100` is the exact percentage for an attempt with questions, `NaN` exactly for 0 over 0 and `Infinity` exactly for a score over 0 |
| Dashboard.WellFormedIffFinite | src/pages/Dashboard.tsx:94 | every attempt has questions exactly when no percentage is `NaN` or `Infinity` |
| Dashboard.PercentSumUndefined | src/pages/Dashboard.tsx:94 | the `reduce` is `NaN` exactly when one percentage is, and `Infinity` exactly when none is `NaN` and one is `Infinity` |
| Dashboard.PercentMaxUndefined | src/pages/Dashboard.tsx:97 | `Math.max` is `NaN` exactly when one percentage is, and `Infinity` exactly when none is `NaN` and one is `Infinity` |
| Dashboard.ScoresUndefined | src/pages/Dashboard.tsx:93-98 | the average and best cards are `NaN` exactly when some attempt is 0 over 0, and `Infinity` exactly when none is and some score is over 0 questions |
| Dashboard.UndefinedScoresAgree | src/pages/Dashboard.tsx:93-98 | one attempt without questions makes both cards show the same non-number |
| Dashboard.FiniteStats | src/pages/Dashboard.tsx:93-98 | with every attempt having questions the sum and the maximum are numbers |
| Dashboard.MeanAtMostMax | src/pages/Dashboard.tsx:93-98 | with every attempt having questions the mean percentage is at most the largest |
| Dashboard.AvgAtMostBest | src/pages/Dashboard.tsx:93-98 | with every attempt having questions both cards are numbers and the rounded average never exceeds the rounded best |
| Dashboard.ScoresArePercentages | src/pages/Dashboard.tsx:93-98 | with questions on every attempt and scores within their totals, both cards are whole numbers with 0 <= average <= best <= 100 |
| Dashboard.NoAttemptsAllZero | src/pages/Dashboard.tsx:92-98 | with no attempts the count, average, best and streak are all 0 |
| Dashboard.PercentSumBounded | src/pages/Dashboard.tsx:94 | with every attempt having questions the sum is a number and at most n times any bound on each percentage |
| Dashboard.PercentSumNonNegative | src/pages/Dashboard.tsx:94 | with every attempt having questions the sum is a number of at least 0 |
| Dashboard.TotalTimeAppend | src/pages/Dashboard.tsx:99 | the total time adds up over any split of the attempts |
| Dashboard.MissingTimeAddsNothing | src/pages/Dashboard.tsx:99 | an attempt with no recorded time counts as 0 |
| Dashboard.HoursStudied | src/pages/Dashboard.tsx:100 | hours to one decimal: a whole number of tenths within 0.05 of the exact hours |
| Dashboard.StreakFrom | src/pages/Dashboard.tsx:108-114 | counting from day k on adds at most 30-k days |
| Dashboard.GetStreak | src/pages/Dashboard.tsx:103-116 | the loop with its `break` computes the streak of the distinct attempt days |
| Dashboard.StreakIsRun | src/pages/Dashboard.tsx:103-116 | the streak is a run of studied days back from today (or yesterday when today is missing), stopped by the first gap, at most 30 |
| Dashboard.TrendName | src/pages/Dashboard.tsx:123 | the title cut to 15 characters, or `Test <n>` when there is none |
| Dashboard.ScoreTrend | src/pages/Dashboard.tsx:120-124 | min(10, n) points: the most recent attempts, oldest first, numbered 1..k, each named by `TrendName` with the rounded JavaScript percentage, a whole percentage for an attempt with questions |
| Dashboard.SubjectName | src/pages/Dashboard.tsx:129 | never empty: a missing subject is filed as 'Unknown' |
| Dashboard.StatsCountIsCount | src/pages/Dashboard.tsx:128-135 | a subject's count is how many attempts carry that subject |
| Dashboard.SubjectCountsSum | src/pages/Dashboard.tsx:127-135 | the per-subject counts sum to the number of attempts |
| Dashboard.SubjectMapStep | src/pages/Dashboard.tsx:128-134 | one pass of the `forEach` body keeps the keys in first-appearance order and every entry equal to its subject's sums |
| Dashboard.SubjectMapMeaning | src/pages/Dashboard.tsx:127-135 | the map's keys are the subjects in first-appearance order, and each entry sums totals and scores and counts its attempts |
| Dashboard.BuildSubjectMap | src/pages/Dashboard.tsx:127-135 | the `forEach` filling the map yields those keys in that order, with each entry the subject's aggregate |
| Dashboard.StatsTotalCoversCount | src/pages/Dashboard.tsx:131-133 | a subject's question total is at least its attempt count, so its average is defined |
| Dashboard.SubjectData | src/pages/Dashboard.tsx:136-140 | one bar per map entry, in map order, with the subject cut to 12 characters, the rounded pooled percentage (`NaN` or `Infinity` for a total of 0) and the test count |
| Dashboard.TestsColumnIsCountSum | src/pages/Dashboard.tsx:136-140 | bars built from the attempts' entries have a tests column summing to their subjects' attempt counts |
| Dashboard.StatsScoreWithinTotal | src/pages/Dashboard.tsx:131-132 | a subject's summed score is at most its summed questions when each attempt's is |
| Dashboard.SubjectAvgIsPercentage | src/pages/Dashboard.tsx:131-138 | a subject with attempts, all with questions and scores within totals, has a whole average in [0, 100] |
| Dashboard.SubjectEntries | src/pages/Dashboard.tsx:127-135 | the map's keys are the subjects in first-appearance order, each with the totals of its attempts |
| Dashboard.SubjectRowFields | src/pages/Dashboard.tsx:136-140 | a bar built from a subject's entry is that subject's bar: its name cut to 12, the rounded pooled percentage, its attempt count |
| Dashboard.SubjectRowAverages | src/pages/Dashboard.tsx:131-140 | with questions on every attempt and scores within totals, every bar's average is a whole number in [0, 100] |
| Dashboard.SubjectRowsMeaning | src/pages/Dashboard.tsx:127-140 | the bars drawn from the attempts: one per subject in first-appearance order, each its subject's bar, the tests column adding up to the number of attempts, and every average in [0, 100] when every attempt has questions and no score exceeds its total |
| Dashboard.RecentTests | src/pages/Dashboard.tsx:285-296 | at most 5 rows, the first attempts in order, each with its title and rounded JavaScript percentage; an attempt with questions gets the band of its whole percentage, one without gets destructive for `NaN` and success for `Infinity` |
| Admin.AccessGate | src/pages/Admin.tsx:122-133 | after loading, a visitor is either redirected or served, exactly one of the two; only signed-in admins get the user list, and moderators never do |
| Admin.NewPaper | src/pages/Admin.tsx:209-224 | refused exactly when university, subject or course is empty; otherwise the fields are copied and an empty URL is stored as null |
| Admin.NullIfEmpty | src/pages/Admin.tsx:221 | `value \|\| null` on strings |
| Admin.EmptyPaperFormRefused | src/pages/Admin.tsx:231-239 | the reset paper form cannot be submitted as it is |
| Admin.NewTest | src/pages/Admin.tsx:245-258 | refused exactly when title or subject is empty; an empty chapter becomes null |
| Admin.OptionsOf | src/pages/Admin.tsx:285-290 | the non-empty option boxes, in order, each as often as it was typed, at most four |
| Admin.NewQuestion | src/pages/Admin.tsx:279-303 | a missing test or empty text is refused first, then fewer than two options; otherwise the row has the options and the chosen index unchanged |
| Admin.AnswerIndexNotShifted | src/pages/Admin.tsx:285-301 | with box A empty, the stored index 1 names box C among the stored options: the index is not re-based |
| Admin.RolesOf | src/pages/Admin.tsx:186 | a user's roles are exactly the role rows with their user id, in query order |
| Admin.JoinRoles | src/pages/Admin.tsx:184-187 | one entry per profile, holding exactly its matching role rows, or none when the role query gave nothing |
| Admin.JoinDependsOnlyOnUserId | src/pages/Admin.tsx:186 | two profiles with the same user id see the same roles |
| Admin.AssignRoleAsWritten | src/pages/Admin.tsx:833-836 | the inserted role row is keyed by the profile's row id |
| Admin.AssignRoleCorrected | src/pages/Admin.tsx:347-351 | the inserted role row is keyed by the profile's user id |
| Admin.AssignedRoleInvisibleAsWritten | src/pages/Admin.tsx:833-836 | as written, a granted role is missing from the profile's card after the reload |
| Admin.AssignedRoleVisibleCorrected | src/pages/Admin.tsx:184-187 | corrected, the granted role appears on that user's card next to the roles they already had |
| Admin.AssignRoleMessage | src/pages/Admin.tsx:353-360 | code 23505 gives "already has this role", any other error a generic failure, success names the role |
| Admin.AssignRoleMessagesDistinct | src/pages/Admin.tsx:353-360 | the three messages differ |
| Admin.StatsOf | src/pages/Admin.tsx:201-206 | each missing count shows as 0, each present count as itself |
| Admin.AdminPage.constructor | src/pages/Admin.tsx:85-120 | dialogs closed, no test selected, all forms empty |
| Admin.AdminPage.AddPaper | src/pages/Admin.tsx:209-243 | sends `NewPaper`; only a sent and accepted insert closes the dialog and resets the form |
| Admin.AdminPage.AddTest | src/pages/Admin.tsx:245-277 | sends `NewTest`; success closes the test dialog, selects the new test, opens the question dialog and resets the form |
| Admin.AdminPage.AddQuestion | src/pages/Admin.tsx:279-320 | sends `NewQuestion`; success resets the question form and keeps the dialog open |
| Admin.QuestionAfterNewTest | src/pages/Admin.tsx:265-266 | after a test is created, questions with text and two options are accepted for it |
| Papers.FilteredPapers | src/pages/Papers.tsx:21-34 | an order-preserving subsequence holding exactly the papers that match search and filters, each as often as it occurs |
| Papers.HasActiveFilters | src/pages/Papers.tsx:40 | true exactly when some filter is non-empty |
| Papers.ClearedFilters | src/pages/Papers.tsx:36-38 | every filter is empty |
| Papers.ClearedFiltersInactive | src/pages/Papers.tsx:36-40 | after clearing nothing is active and only the search decides |
| Papers.EmptySearchShowsAll | src/pages/Papers.tsx:22-33 | an empty search with no filter lists every paper |
| Papers.NarrowingOnlyRemoves | src/pages/Papers.tsx:27-33 | setting more filters keeps a subsequence of the list |
| Papers.YearFilterByText | src/pages/Papers.tsx:31 | the year filter compares the printed year: 2023 passes "2023" and fails "2024" |
| Leaderboard.SubjectTabs | src/pages/Leaderboard.tsx:43-46 | no duplicates, exactly the returned subjects, first-appearance order; a failed query keeps the tabs |
| Leaderboard.ParamsFor | src/pages/Leaderboard.tsx:51-54 | limit 50; tab 'all' sends a null subject, any other tab itself |
| Leaderboard.ParamsDetermineTab | src/pages/Leaderboard.tsx:53 | the query arguments give the tab back; two tabs never share them |
| Leaderboard.EntriesAfterFetch | src/pages/Leaderboard.tsx:56-58 | the rows returned, or the previous rows when there are none |
| Leaderboard.Podium | src/pages/Leaderboard.tsx:97-101 | drawn exactly with at least 3 entries, in the order entries[1], entries[0], entries[2] |
| Leaderboard.PodiumIsTopThree | src/pages/Leaderboard.tsx:97-101 | the podium is a rearrangement of the first three entries with the winner in the middle |
| Leaderboard.RankLabel | src/pages/Leaderboard.tsx:151-157 | an icon exactly for rows 0-2; otherwise `#` followed by the decimal digits of index+1 |
| Leaderboard.RankLabelsDistinct | src/pages/Leaderboard.tsx:151-157 | two rows never carry the same rank mark |
| Leaderboard.DisplayName | src/pages/Leaderboard.tsx:121 | the full name when non-empty, otherwise "Anonymous" |
| PdfViewer.ZoomedIn | src/components/PDFViewer.tsx:17 | keeps zoom valid, never above 200, one step of 25 up below the top |
| PdfViewer.ZoomedOut | src/components/PDFViewer.tsx:18 | keeps zoom valid, never below 50, one step of 25 down above the bottom |
| PdfViewer.NextRotation | src/components/PDFViewer.tsx:19 | keeps rotation a quarter turn in [0, 360); from -90 up it is the remainder in [0, 360), and below -90 JavaScript's `%` gives a value in (-360, 0] |
| PdfViewer.JsRem | src/components/PDFViewer.tsx:19 | JavaScript's `%`: the Euclidean remainder for a non-negative left side; otherwise minus the remainder of its magnitude, in (-n, 0] |
| PdfViewer.FourRotationsRestore | src/components/PDFViewer.tsx:19 | four quarter turns restore the orientation |
| PdfViewer.ZoomStepsUndo | src/components/PDFViewer.tsx:17-18 | away from the clamps, zooming in and out undo each other |
| PdfViewer.ZoomClampsAreFixedPoints | src/components/PDFViewer.tsx:17-18 | zoom-in at 200 and zoom-out at 50 change nothing |
| PdfViewer.Viewer.constructor | src/components/PDFViewer.tsx:14-15 | zoom 100, rotation 0 |
| PdfViewer.Viewer.ZoomIn | src/components/PDFViewer.tsx:17 | zoom becomes `ZoomedIn`, rotation is unchanged, zoom stays in [50, 200] and a multiple of 25 |
| PdfViewer.Viewer.ZoomOut | src/components/PDFViewer.tsx:18 | zoom becomes `ZoomedOut`, rotation is unchanged |
| PdfViewer.Viewer.Rotate | src/components/PDFViewer.tsx:19 | rotation becomes `NextRotation` and stays in {0, 90, 180, 270}; zoom is unchanged |
| BottomNav.VisibleItems | src/components/layout/BottomNav.tsx:19-24 | every shown item is visible for the visitor's sign-in state |
| BottomNav.VisibleItemsExact | src/components/layout/BottomNav.tsx:19-24 | the shown items keep their order, and every visible item is shown |
| BottomNav.VisibleNavItems | src/components/layout/BottomNav.tsx:6-24 | exactly five links: the four public ones, then the dashboard when signed in or the profile when signed out |
| BottomNav.ShownHrefsDistinct | src/components/layout/BottomNav.tsx:6-13 | the shown links have distinct targets |
| BottomNav.AtMostOneActive | src/components/layout/BottomNav.tsx:30 | with distinct targets at most one link is highlighted |
| Text.Split | src/components/admin/BulkImport.tsx:276 | the pieces joined by the separator give the text, and no piece contains it |
| Text.TrimWith | src/components/admin/BulkImport.tsx:284 | the result is a slice with only whitespace around it and no whitespace at its ends |
| Text.TrimNoOuterSpace | src/components/admin/BulkImport.tsx:284 | a string without outer whitespace trims to itself |
| Text.TrimBlank | src/components/admin/BulkImport.tsx:334 | `trim` leaves nothing exactly when every character is whitespace |
| Text.TrimWithBlank | src/components/admin/BulkImport.tsx:334 | trimming any class of characters leaves nothing exactly when every character is of that class |
| Text.KeepNonEmpty | src/components/admin/BulkImport.tsx:276 | `filter(Boolean)`: an order-preserving subsequence holding exactly the non-empty strings, each as often as in the input |
| Text.ParseIntLeadingNumber | src/components/admin/BulkImport.tsx:288 | `parseInt` reads a printed number followed by a non-digit back as that number |
| Text.ParseIntNoDigits | src/components/admin/BulkImport.tsx:288 | `parseInt` of text starting with no digit or sign is NaN |
| Text.NatToStringValue | src/pages/Papers.tsx:31 | printing a number and reading its digits back gives the number |
| Seqs.Dedupe | src/pages/MockTests.tsx:18 | `[...new Set(xs)]`: the same members, and no duplicates |
| Seqs.DedupeFirstAppearance | src/pages/Leaderboard.tsx:44 | de-duplication keeps first-appearance order |
| Seqs.FilterMonotone | src/pages/Papers.tsx:21-33 | a stronger predicate keeps a subsequence of what a weaker one keeps |
| Seqs.FilterMultiset | src/pages/Papers.tsx:21-33 | a filter keeps each element that passes exactly as often as it occurs, and drops every other |

## Left out

- Backend calls (queries, inserts, storage uploads, the ranking procedure, sign-in) are not
  modelled. Their answers are parameters: `FileReply`, `insertError`, `inserted`, `newId`, the
  fetched rows and counts.
- `JSON.parse` and `JSON.stringify` are not modelled. The import starts from an already
  parsed `Json` value, or `None` for text that does not parse. `CsvThroughImport` assumes
  that stringifying and re-parsing the CSV questions gives back the same values.
- `FileReader`, `Date.now()`, `new Date()` and `setInterval` are not modelled. The clock
  readings, the current year and today's day number are parameters. The timer is the
  explicit `Attempt.Tick` method, called once per second.
- Floating point is replaced by exact reals in percentages, averages and hours. IEEE
  rounding artefacts are not modelled. The dashboard's `NaN` and `Infinity` (an attempt
  stored with 0 questions) are modelled by `Scoring.JsNum`. The test page's own division
  by zero is not (see `CalculateScore` below).
- `toLowerCase` is ASCII only. Full Unicode case mapping is not modelled.
- `toDateString` and calendar or time-zone rules are not modelled. Days are integer day
  numbers, and a day's attempts share one number.
- `parseInt` works on unbounded integers. Precision loss past 2^53 is not modelled.
- Rendering, animation, routing and the loading spinners are not modelled. Toasts are
  modelled only as the role messages, the import outcome and the upload summary. The
  refusal toasts of the upload and import forms appear only as the refused outcome.
- The Dashboard's redirect of signed-out visitors is the same rule as `Admin.Redirects`
  without roles. It is not modelled separately.
- The chart placeholders ("at least two trend points", "at least one subject") are
  rendering choices and are not modelled.
- The admin delete and activate/deactivate buttons are not modelled. Each is a single
  backend call followed by a reload, with no logic of its own.
- `MockTestDetail.Attempt.constructor`: requires a duration of at least 0. Every catalogue
  test has a positive duration, so negative durations are outside the model.
- `MockTestDetail.Attempt.CalculateScore`: requires at least one question. The source
  divides by zero there and shows NaN.
- `MockTestDetail.Attempt.SelectAnswer`: requires the test screen with at least one
  question. The page renders `questions[currentQuestion]` there and has no buttons
  otherwise.
- `BulkImport.StoragePath`: carries no contract of its own. Its meaning is stated by
  `StoragePathParts`, which assumes no part contains '/'.
- `BulkImport.PaperUpload.Upload`: one atomic step. The source awaits each file, so the
  page stays live during the loop. Files dropped during the upload are then cleared
  unsent by `setFiles([])` (line 109). A file removed during the upload is still sent,
  because the loop walks the list captured at the click. `Valid()` requires that no
  upload is running between calls, and the interleaving itself is not modelled.
- `Leaderboard.EntriesAfterFetch`: one reply per tab change, applied in order. The
  source does not cancel an earlier fetch (src/pages/Leaderboard.tsx:34-58). A slow
  reply for an old tab can therefore overwrite the rows of the tab now selected. That
  race is not modelled.
- `BulkImport.HandleImport`: `Crashed` stands for the TypeError when an item is null. The
  source's `finally` then only clears the importing flag. The thrown error itself is not
  modelled. The outcome also leaves out the page-state effects: the importing flag, the
  clearing of the JSON box by `setJsonInput('')` after a successful import
  (src/components/admin/BulkImport.tsx:261), and the `onComplete` callback.
- `Admin.NewPaper`, `Admin.NewTest`: the year and the duration are plain integers. The
  source reads those boxes with `parseInt(e.target.value)` (src/pages/Admin.tsx:537, 633),
  so an emptied box gives `NaN`. That value, and what the insert then stores, is not
  modelled.

## Findings

| source | as written | input that shows it | evidently intended | confidence | as-written member | corrected member |
|---|---|---|---|---|---|---|
| src/pages/Admin.tsx:833-836 | the Make Mod / Make Admin buttons pass the profile row's `id` as the role's `user_id`, while the role join (line 186) matches on the profile's `user_id` | a profile with id "p1" and user id "u1": after granting admin, the card shows no admin role | insert the role under the profile's `user_id`, so that it shows on the card after the reload | not executed | Admin.AssignRoleAsWritten, Admin.AssignedRoleInvisibleAsWritten | Admin.AssignRoleCorrected, Admin.AssignedRoleVisibleCorrected |
