# Verified model of the Valorant VOD coach

This project models the decision-making core of the VOD coach in Dafny and proves what it promises.

- **Gameplay timeline.** Sampled frames become observations on whole milliseconds (`Observations`), which are classified
  into phases, cut into round segments, and searched for review windows under a budget (`Phases`, `RoundTimeline`,
  `RoundSegments`, `ReviewCandidates`, `ReviewWindows`, `WindowOrder`, `DeathSelection`, `GameplayReview`). What the
  windows of a match say about its frames, and the frames about the windows, is stated with every threshold and distance
  written out (`ReviewCoverage`) and carried through both passes (`MatchReview`). Text recognition results are merged and confirmed states spread
  through the frames in place (`OcrStates`); every window gets before, event and after evidence (`Evidence`); recognized
  words are compared by edit distance (`EditDistance`).
- **Evaluation.** Predicted events are matched to labels greedily and counted per type (`Evaluation`, `Tally`).
- **Durable protocols.** The analysis job with its workflow, dispatcher and cancellation (`Jobs`, `JobLifecycle`, `JobRuns`), the
  outbox and its relay workers (`Outbox`), the sink that stores events (`EventSink`), and the upload catalog with its
  object store and cache (`UploadCatalog`) are state machines: a function gives the state after an event, and theorems
  quantify over every sequence of events. The classes beside them are the operations as the source writes them.
- **Stores.** Job listing page by page (`JobPages`) and rate limiting in memory and in Redis (`RateLimiter`).
- **Passwords.** Key derivation and the text form of a hash (`PasswordHash`, `Base64`, `Bytes`).

`Wrappers`, `Text`, `Finite`, `Sorting`, `Division`, `Rounding` and `Windows` hold shared definitions.
Seconds and scores are exact reals; rounding to milliseconds and to four digits is modelled explicitly. Times in the
protocols are integers.

`dafny verify dfyconfig.toml` verifies the whole project.

## Where the code falls short of its intent

Each point has a lemma with an input, or a family of inputs, that shows it, and a theorem with the exact condition or the
hypothesis under which the intent holds.

- **A job can hang.** Finalizing activities are tried five times; after that the workflow ends, whatever became of the row.
  Five failed tries to complete an analysis leave a running job that nothing ends (`JobRuns.FinishedJobCanHang`). A job can
  still end exactly when it has ended, its workflow has not, or an activity given up on still runs (`JobRuns.EndsIff`), and
  be cancelled exactly as `JobRuns.CancelsIff` says.
- **Job updates overwrite the whole row.** If finding and writing are not one step, a completed job can run again and a
  cancellation can be lost (`JobRuns.SplitUpdateRevivesCompleted`, `JobRuns.SplitUpdateLosesCancellation`,
  `JobRuns.DeferredStartRevivesCompleted`). `JobRuns.StaleWritesThatBreak` lists exactly the outdated writes that change a
  terminal status; if every write finds its row unchanged, every run is as safe as with single steps
  (`JobRuns.CurrentRunsAreSafe`).
- **Outbox marks check no owner.** A stale worker can un-publish a row, which is then sent twice, and can split the lease
  of another worker (`Outbox.StaleFailureRepeats`, `Outbox.IntrusionSplitsTheLease`). A published row stays published
  exactly as long as nobody reports a refused delivery of it (`Outbox.PublishedIff`), and a lease is recorded exactly as
  long as no other worker marks the row (`Outbox.OwnershipSurvives`). A worker that marks only within its own lease does
  neither (`Outbox.MarkingInTimeIsEnough`).
- **Labels with a category but no type** are counted under a key that no prediction has. Per type, matches stay within
  predictions for all predictions exactly when every label has a type (`Evaluation.MatchesWithinPredictionsIff`,
  `Evaluation.ExposedMatch`). Such labels alone let no event through the filter (`Evaluation.FilterKeeps`,
  `Evaluation.CategoryOnlyLabelsAreAlwaysMissed`).
- **The sink skips failed messages.** README.md line 149 says the offset is committed only after a successful insert; the
  loop goes on after a failure and the next commit covers the failed message (`EventSink.LoopSkipsMessage`). The model
  follows the code; with a restart after each failure the statement holds (`EventSink.CommittedIsCovered`).
- **An upload record can dangle** if a save that reported an error took effect, or if a second process updates outside the
  lock (`UploadCatalog.UnseenSaveDangles`, `UploadCatalog.UnserialisedUpdateDangles`).
- **Registration trims the password and logging in does not** (`PasswordHash.RegisterThenLogin`).

## Model

| member | source | states |
|---|---|---|
| EditDistance.EditDistance | internal/adapters/vision/tesseract.go:369-389 | The two-row loop returns the recursively defined Levenshtein distance of any two strings. |
| EditDistance.ZeroIffEqual | internal/adapters/vision/tesseract.go:369-389 | The distance is zero exactly for equal strings. |
| EditDistance.Symmetric | internal/adapters/vision/tesseract.go:369-389 | The distance is symmetric. |
| EditDistance.Triangle | internal/adapters/vision/tesseract.go:369-389 | The distance satisfies the triangle inequality. |
| EditDistance.OptimalScript | internal/adapters/vision/tesseract.go:369-389 | Some script of single-character edits as long as the distance turns one string into the other. |
| EditDistance.NoShorterScript | internal/adapters/vision/tesseract.go:369-389 | No script of edits that turns one string into the other is shorter than the distance. |
| EditDistance.DistanceIsShortestScript | internal/adapters/vision/tesseract.go:369-389 | The distance is at most k if and only if some script of at most k edits exists. |
| OcrStates.SelectTasks | internal/adapters/vision/tesseract.go:118-149 | Exactly the frames that start a three-second bucket or show a rising signal become tasks, in order, with their flags. |
| OcrStates.EveryBucketIsChecked | internal/adapters/vision/tesseract.go:121-127 | Every frame lies in a bucket whose first frame is inspected for the buy phase. |
| OcrStates.BucketsLastThreeSeconds | internal/adapters/vision/tesseract.go:121-127 | Buckets follow time: frames of one bucket are less than three seconds apart, and frames three seconds apart have different ones. |
| OcrStates.CompactLaw | internal/adapters/vision/local.go:1053-1068 | Recording signals keeps exactly the signals that occur, each once, in the order of their first occurrence. |
| OcrStates.MergeResults | internal/adapters/vision/tesseract.go:84-108 | In place, every recognised frame records exactly the signals of its own result, each once, and every signal leaves its level trusted; frames without a successful result stay as they were. |
| OcrStates.EveryResultIsRecorded | internal/adapters/vision/tesseract.go:84-108 | So for any list of results with distinct indices, whatever their order. |
| OcrStates.ArrivalOrderDoesNotMatter | internal/adapters/vision/tesseract.go:84-108 | Results with distinct indices give every frame the same signals in any order of arrival. |
| OcrStates.SpreadConfirmedStates | internal/adapters/vision/tesseract.go:319-358 | The in-place propagation equals the closure: raised within 5, 2 or 4 seconds of a confirmation, or between consecutive buy confirmations at most 32 seconds apart, and not otherwise. |
| OcrStates.SpreadMeans | internal/adapters/vision/tesseract.go:319-358 | Spreading raises the buy phase to 0.90, the scoreboard to 0.80 and the round end to 0.90 exactly within 5, 2 and 4 seconds of a frame that recognised it, the buy phase also between such frames at most 32 seconds apart with none in between, and nowhere else. |
| OcrStates.SpreadNeverLowers | internal/adapters/vision/tesseract.go:319-358 | Propagation lowers no signal and changes nothing but the three it raises. |
| OcrStates.SpreadIsIdempotent | internal/adapters/vision/tesseract.go:319-358 | Propagating twice is propagating once. |
| Evidence.NearestObservationIndex | internal/adapters/vision/local.go:1347-1370 | The early-exit scan returns the closest frame of the whole side, ties to the frame nearest the peak. |
| Evidence.ClosestIsUnique | internal/adapters/vision/local.go:1347-1370 | That frame is unique, so any full scan with the same tie rule agrees. |
| Evidence.ClosestFrame | internal/adapters/vision/local.go:1347-1370 | The full scan used as the reference finds the closest frame. |
| Evidence.EvidenceSequence | internal/adapters/vision/local.go:1330-1345 | The evidence is that of full scans on either side of the peak. |
| Evidence.EvidenceMeans | internal/adapters/vision/local.go:1330-1370 | The earlier frame is the one closest to the wanted time before the peak, the later frame the one closest to the wanted time after it, ties going to the frame nearer the peak. |
| Evidence.EvidenceIsOrdered | internal/adapters/vision/local.go:1330-1345 | Evidence holds the peak, one earlier and one later frame whenever there are any, in strictly increasing frame order. |
| Observations.CollectFrameObservations | internal/adapters/vision/frame_analyzer.go:33-53 | The loop observes the readable frames in order until the caller cancels, and counts the rest. |
| Observations.ObserveMeans | internal/adapters/vision/frame_analyzer.go:115-130 | An observation is the measurement of its frame at its time to the millisecond. |
| Observations.ObservedIsTimeline | internal/adapters/vision/frame_analyzer.go:122 | Frames sampled in order of time become observations in order of time, on whole milliseconds. |
| Phases.AverageOf | internal/adapters/vision/local.go:1132-1141 | The loop returns the mean, zero for no frames. |
| Phases.AverageWithin | internal/adapters/vision/local.go:1132-1141 | A mean lies between any bounds that hold for all frames. |
| Phases.DeviationOf | internal/adapters/vision/local.go:1154-1164 | The loop returns the root of the mean squared error, for a given square root function. |
| Phases.DeviationIsRoot | internal/adapters/vision/local.go:1154-1164 | Given a square root, the squared deviation is the mean squared error: zero exactly for frames that all have the average, and no frame lies further off than its bound. |
| Phases.ClassifyPhases | internal/adapters/vision/local.go:144-173 | In place, every frame gets the phase of the thresholds of the whole match and nothing else changes. |
| Phases.ClassifyingTwice | internal/adapters/vision/local.go:144-173 | Classifying classified frames changes nothing. |
| Phases.PhasesMean | internal/adapters/vision/local.go:153-171 | Each phase holds if and only if its own condition, with the trusted levels written out; no frame is both slow enough to hold and fast enough to rotate. |
| Phases.ThresholdsMean | internal/adapters/vision/local.go:144-151 | The thresholds are 0.72 standard deviations above the mean combat, 1.35 and 0.58 times the mean motion, with their floors, for reference sums over the frames. |
| Phases.ClassifiedFramesAreCounted | internal/adapters/vision/local.go:208-226 | The phase profile of a classified match counts every frame once. |
| RoundTimeline.DetectBuyPhaseAnchors | internal/adapters/vision/local.go:315-350 | The cluster loop returns one anchor for each maximal buy cluster that qualifies, with the best signal of the cluster. |
| RoundTimeline.FlushCluster | internal/adapters/vision/local.go:318-334 | Closing a cluster adds its anchor exactly when it has two frames or a strong one. |
| RoundTimeline.AnchorsAreFrames | internal/adapters/vision/local.go:315-350 | Every anchor has the time of a frame. |
| RoundTimeline.RunHasAnchor | internal/adapters/vision/local.go:315-350 | Every maximal run of buy screens with steps of at most 12 seconds, and two frames or one at 0.95, has its anchor. |
| RoundTimeline.AnchorHasRun | internal/adapters/vision/local.go:315-350 | Every anchor is that of such a run: its first frame, with the best signal of the run. |
| RoundTimeline.AnchorStartsRound | internal/adapters/vision/local.go:238-252 | An anchor starts a round unless it comes less than 35 seconds after the start of another or less than 20 before the end. |
| RoundTimeline.SnapRoundBoundary | internal/adapters/vision/local.go:364-389 | The boundary is the best-scored frame within the radius, or the target if there is none. |
| RoundTimeline.SnapIsBest | internal/adapters/vision/local.go:367-384 | No frame within the radius scores higher, and ties go to the earliest. |
| RoundTimeline.CalmerScoresHigher | internal/adapters/vision/local.go:371-379 | Within a phase more combat or motion never scores higher; the same picture scores highest when holding, then midround, and lowest in a fight. |
| RoundTimeline.ScoreMeans | internal/adapters/vision/local.go:371-379 | What combat, motion and the phase weigh while no bound of the score is met. |
| RoundTimeline.RoundCountMeans | internal/adapters/vision/local.go:352-362 | One round below 95 seconds, two below 180, and from there on the number of 105-second rounds nearest to the length, up to 26. |
| RoundTimeline.RoundCountGrows | internal/adapters/vision/local.go:352-362 | A longer match never has fewer rounds. |
| RoundTimeline.BuildBoundaries | internal/adapters/vision/local.go:234-280 | The boundaries are those of the anchor path if it leaves three, else of the cadence path. |
| RoundTimeline.AnchorRoundsAreLong | internal/adapters/vision/local.go:238-252 | On the anchor path every round lasts at least 35 seconds, the last at least 20. |
| RoundTimeline.CadenceIsLong | internal/adapters/vision/local.go:352-362 | With two or more rounds the cadence is at least 47.5 seconds. |
| RoundTimeline.CadenceBoundaryKeepsDistance | internal/adapters/vision/local.go:267-275 | A snapped or rejected boundary keeps the whole minimum gap from its predecessor and from the end. |
| RoundTimeline.CadenceRoundsAreLong | internal/adapters/vision/local.go:264-280 | On the cadence path every round lasts at least min(45, 0.55 cadence), the last min(30, 0.38 cadence). |
| RoundTimeline.BoundariesFormLadder | internal/adapters/vision/local.go:229-284 | Boundaries run in order from the first frame to the last on every path. |
| RoundSegments.ObservationsInRange | internal/adapters/vision/local.go:398-410 | The loop returns the frames of a range in their order. |
| RoundSegments.ReviewWindowIdsInRange | internal/adapters/vision/local.go:412-424 | The loop returns the IDs of the windows that peak in a range. |
| RoundSegments.BuildPhaseProfile | internal/adapters/vision/local.go:203-227 | The profile lists the non-zero phase counts in their fixed order with their ratios. |
| RoundSegments.ProfileCounts | internal/adapters/vision/local.go:208-226 | A profile gives every phase its exact number of frames. |
| RoundSegments.RoundSegmentsFromBoundaries | internal/adapters/vision/local.go:286-313 | One segment for each pair of boundaries, with its frames' profile and its windows. |
| RoundSegments.BuildRoundSegments | internal/adapters/vision/local.go:229-284 | The segments are cut at the boundaries of the frames, whatever windows are given. |
| RoundSegments.ExactlyOneSegment | internal/adapters/vision/local.go:398-410 | Every time between the first and the last boundary lies in exactly one segment. |
| RoundSegments.SegmentsPartitionFrames | internal/adapters/vision/local.go:286-294 | The frames of the segments, laid end to end, are the frames of the match. |
| RoundSegments.PhaseCountsAreConserved | internal/adapters/vision/local.go:294-295 | For every phase the counts of the segments add up to the count of the match. |
| RoundSegments.BoundaryIsRounded | internal/adapters/vision/local.go:256-276 | Every boundary lies on a whole millisecond. |
| RoundSegments.SegmentsAreCut | internal/adapters/vision/local.go:286-305 | So the published bounds of the segments are the boundaries themselves. |
| RoundSegments.AssignWindowRoundNumbers | internal/adapters/vision/local.go:439-454 | In place, every window gets the round of the first segment that holds its peak and nothing else changes. |
| RoundSegments.RoundForIsUnique | internal/adapters/vision/local.go:439-454 | That is the only segment that holds the peak by its published bounds; a window outside all keeps its number. |
| RoundSegments.AssigningTwice | internal/adapters/vision/local.go:439-454 | Assigning numbers again changes nothing. |
| RoundSegments.PassesAgree | internal/adapters/vision/local.go:122-127 | Every window between the first and the last frame gets one round, and is listed in a segment if and only if it gets the number of that segment. |
| ReviewCandidates.FindDeathClusters | internal/adapters/vision/local.go:538-566 | The loop returns one candidate for each maximal run of frames with a combat report. |
| ReviewCandidates.DeathPeakIsStrongest | internal/adapters/vision/local.go:553-555 | The peak of a run is its strongest frame within 8 seconds of its start, the earliest on ties. |
| ReviewCandidates.EveryFrameIsInARun | internal/adapters/vision/local.go:541-566 | Every frame with the property lies in exactly one run. |
| ReviewCandidates.EveryReportIsInspected | internal/adapters/vision/local.go:465-467 | Every frame that shows a combat report belongs to a cluster with a candidate that peaks in it. |
| ReviewCandidates.FindFightFrames | internal/adapters/vision/local.go:613-618 | The loop returns the frames that show a fight. |
| ReviewCandidates.FindCalmPeriods | internal/adapters/vision/local.go:676-698 | The loop returns one candidate for each maximal run of calm frames that lasts 8 seconds. |
| ReviewCandidates.PeriodListed | internal/adapters/vision/local.go:683-695 | Every maximal run of calm frames that lasts 8 seconds is a candidate. |
| ReviewCandidates.FindRotationFrames | internal/adapters/vision/local.go:750-755 | The loop returns the frames that show a rotation with no overlay within 4 seconds. |
| ReviewCandidates.PointCandidatesAreExact | internal/adapters/vision/local.go:614-618 | The candidates are exactly the frames that show a fight or a rotation. |
| ReviewCandidates.HasNearbyBlockingOverlay | internal/adapters/vision/local.go:791-808 | True exactly when some frame within the radius shows one of the four screens. |
| ReviewWindows.OverlapsAny | internal/adapters/vision/local.go:1166-1173 | True exactly when some window, widened by the padding, meets the interval. |
| ReviewWindows.RankCandidates | internal/adapters/vision/local.go:568-570 | The candidates in an order in which none outranks one before it; what the order means for the windows is GreedyGoesByScore. |
| ReviewWindows.ChooseWindows | internal/adapters/vision/local.go:571-597 | The loop takes candidates in order, each clear of all windows so far, up to the limit. |
| ReviewWindows.ChosenIsClear | internal/adapters/vision/local.go:627-658 | What a builder adds lies further than the padding of the kinds from every window placed before it. |
| ReviewWindows.PublishedAsIs | internal/adapters/vision/local.go:586-587 | Rounding the bounds of a window for publication does not move them. |
| ReviewWindows.ChosenIsMaximal | internal/adapters/vision/local.go:627-658 | A candidate without a window was too close to a window placed before it or to one made of an earlier candidate, or windows of earlier candidates reached the limit. |
| ReviewWindows.GreedyGoesByScore | internal/adapters/vision/local.go:623-658 | A candidate without a window was too close to a window of a kind placed before, or to one of a candidate that scores at least as high, or such candidates reached the limit; of equal deaths the earlier peak comes first. |
| ReviewWindows.GreedyShowsCandidates | internal/adapters/vision/local.go:627-658 | Every window is made of a candidate, with its bounds, peak and score. |
| ReviewWindows.ShapedSpans | internal/adapters/vision/local.go:574-589 | Every window holds its peak and is at least 8 seconds long. |
| WindowOrder.SortReviewWindows | internal/adapters/vision/local.go:1175-1186 | In place, the windows are sorted by start, then falling score, and numbered in that order. |
| WindowOrder.ArrangedWindows | internal/adapters/vision/local.go:1175-1186 | Arranging keeps the number of windows, orders them by start with falling score on equal starts, and gives distinct IDs. |
| WindowOrder.ArrangedMembers | internal/adapters/vision/local.go:1175-1186 | Arranging keeps how many windows have any property that ignores IDs. |
| DeathSelection.SelectDeathWindowsByRound | internal/adapters/vision/local.go:486-526 | The result is the first window of every round in order of peaks, thinned to the best of equal buckets above the limit, and arranged. |
| DeathSelection.SelectionIsSpread | internal/adapters/vision/local.go:486-526 | Of the first windows of all rounds in order of peaks, all are selected if they are within the limit, and else the best of each of as many equal stretches, with the bounds of the stretches written out. |
| DeathSelection.ByPeakIsStable | internal/adapters/vision/local.go:491-495 | Windows with the same peak keep their order. |
| DeathSelection.SelectionSize | internal/adapters/vision/local.go:509-511 | Exactly the smaller of the limit and the number of rounds plus windows without a round. |
| DeathSelection.SelectionPerRound | internal/adapters/vision/local.go:496-508 | At most one window for a round, and it is the earliest candidate of the round. |
| DeathSelection.BucketsTile | internal/adapters/vision/local.go:514-516 | The buckets are not empty, follow one another and cover all positions. |
| DeathSelection.BucketsAreEven | internal/adapters/vision/local.go:514-516 | Every bucket has n / limit positions or one more, and the b-th starts at the whole part of b * n / limit. |
| DeathSelection.BucketOf | internal/adapters/vision/local.go:514-516 | Every position lies in a bucket. |
| DeathSelection.BucketedPicks | internal/adapters/vision/local.go:517-523 | Each pick has the best score of its bucket. |
| DeathSelection.SelectionPairwise | internal/adapters/vision/local.go:486-526 | Whatever holds between any two candidates holds between any two selected windows. |
| GameplayReview.BuildDeathReviewWindows | internal/adapters/vision/local.go:528-598 | The greedy choice from the combat-report runs, strongest first. |
| GameplayReview.BuildHighImpactWindows | internal/adapters/vision/local.go:600-661 | The greedy choice from the fight frames above the threshold, clear of the deaths, by falling combat. |
| GameplayReview.BuildPassiveWindows | internal/adapters/vision/local.go:663-734 | The greedy choice from the calm periods, clear of deaths and fights, longest first. |
| GameplayReview.BuildRotationWindows | internal/adapters/vision/local.go:736-789 | The greedy choice from the rotation frames, clear of all others, by falling motion. |
| GameplayReview.BuildReviewWindows | internal/adapters/vision/local.go:456-484 | The arranged union of four stages, each within its budget and what the stages before left. |
| GameplayReview.BudgetsMean | internal/adapters/vision/local.go:456-481 | Deaths get the least number that reaches 34 percent of the windows, fights 40 percent, calms the nearest to 16 percent from eight windows on; each at least its minimum. |
| GameplayReview.ClampedMeans | internal/adapters/vision/local.go:456-462 | The number of windows asked for counts between one and twenty. |
| GameplayReview.StagesAreClear | internal/adapters/vision/local.go:456-481 | All stages together keep the windows clear of one another, within the total and every kind's budget. |
| GameplayReview.ReviewIsReviewable | internal/adapters/vision/local.go:456-484 | At most clamp(max, 1, 20) windows, each kind within budget, each holding its peak, sorted by start with distinct IDs, and pairwise disjoint as closed intervals. |
| ReviewCoverage.ReviewIsComplete | internal/adapters/vision/local.go:456-789 | Over frames and windows alone: every window has a frame or run that causes it, with its bounds, peak, score and evidence; every fight, calm and rotation above its threshold has a window, is close to one placed before or to one that scores as high, or the room is used up by such; every report peak, or a stronger one close by, has a death window in its round or the deaths fill their budget. |
| ReviewCoverage.ReportHasPeak | internal/adapters/vision/local.go:538-566 | Every frame that shows a combat report lies in a run with a peak. |
| MatchReview.ReviewMatch | internal/adapters/vision/local.go:98-127 | Classifying, segmenting, choosing, segmenting again and numbering gives a review of the classified frames: complete and with a cause for every window as above, a death window whenever a frame shows a combat report, windows of the stages run on the rounds of the first pass, pairwise disjoint, each with exactly one round, listed in the segment of that round and in no other. |
| MatchReview.PassesReview | internal/adapters/vision/local.go:122-127 | The second pass keeps all of that: the windows of the stages, renumbered by segments cut at the same boundaries, are such a review. |
| Rounding.Round3Laws | internal/adapters/vision/local.go:1414-1416 | Rounding to milliseconds is monotone, moves a value by at most half a millisecond and is idempotent. |
| Rounding.NearestOfHalf | internal/adapters/vision/local.go:1414-1416 | Halves are rounded away from zero. |
| Evaluation.EvaluatedEvents | internal/app/evaluate.go:135-164 | The events kept are those whose key is wanted, without capture quality. |
| Evaluation.SelectedMembers | internal/app/evaluate.go:150-163 | An event is kept if and only if it takes part. |
| Evaluation.KeysOfWords | internal/app/evaluate.go:292-317 | Every word of a family of types has the key of its family, no word of another does, and any other word is its own key. |
| Evaluation.KeysOfTypes | internal/app/evaluate.go:292-317 | Types that differ in case, in surrounding space, or in hyphens, spaces and underscores have the same key. |
| Evaluation.KeyOfKey | internal/app/evaluate.go:292-317 | The key of a key is the key. |
| Text.TrimLaw | internal/app/evaluate.go:293 | Trimming takes the white space off both ends and nothing else. |
| Text.TrimOf | internal/app/evaluate.go:293 | Whatever white space surrounds a trimmed text, trimming gives it back. |
| Text.SpacesAre | internal/app/evaluate.go:293 | The characters that count as white space. |
| Text.LowerLaw | internal/app/evaluate.go:293 | Texts are equal in lower case exactly when they differ in case alone. |
| Text.LowerOfTrim | internal/app/evaluate.go:293 | Trimming and lowering can be done in either order. |
| Text.ReplaceLaw | internal/app/evaluate.go:294-295 | Replacing puts one character in the place of every other and leaves the rest. |
| Text.LessMeans | internal/adapters/webapi/server.go:2921-2926 | One text comes before another if it is lower at the first difference, or a proper beginning of it. |
| Evaluation.CompatibleMeans | internal/app/evaluate.go:208-216 | A label with a type fits an event if and only if they have the same key; one with a category only, exactly the events of that category up to case and the trimming of the label. |
| Evaluation.AdmissibleMeans | internal/app/evaluate.go:172-186 | A pair can be matched if and only if it is compatible and its times lie within the tolerance of each other. |
| Evaluation.FilterWithoutLabels | internal/app/evaluate.go:135-148 | Without labels an event other than capture quality passes if and only if its key is an evaluated type, or no type is evaluated. |
| Evaluation.MatchEvaluationLabels | internal/app/evaluate.go:166-206 | The loops return the matches with their distances to four digits, the missed labels and the false positives of the greedy assignment. |
| Evaluation.NearestIsNearest | internal/app/evaluate.go:172-186 | A label takes the nearest unused compatible event within the tolerance, the earliest on ties, and none only if there is none. |
| Evaluation.GreedyIsValid | internal/app/evaluate.go:166-206 | The assignment is one-to-one, type-compatible and within the tolerance. |
| Evaluation.GreedyIsMaximal | internal/app/evaluate.go:166-206 | No pair can be added to it. |
| Evaluation.GreedyIsHalfOptimal | internal/app/evaluate.go:166-206 | No valid matching has more than twice as many pairs. |
| Evaluation.HalfOptimalIsTight | internal/app/evaluate.go:166-206 | Labels 10, 15 and predictions 14, 5 with tolerance 6 reach the factor two. |
| Evaluation.MatcherConserves | internal/app/evaluate.go:188-205 | Matches and missed labels are the labels, matches and false positives the predictions, as multisets. |
| Evaluation.BuildTypeMetrics | internal/app/evaluate.go:218-263 | One row for each key, in order, with the exact counts of labels, predictions and matches and the ratios to four digits. |
| Evaluation.TypeTotals | internal/app/evaluate.go:218-263 | The rows add up to the overall counts. |
| Evaluation.TypeCountsAreBounded | internal/app/evaluate.go:235-246 | Per type, matches never exceed labels, nor predictions when every label has a type or outside category keys. |
| Evaluation.MatchesWithinPredictionsIff | internal/app/evaluate.go:208-246 | For labels with a type or category each: per key, matches never exceed predictions, whatever is predicted, if and only if every label has a type. |
| Evaluation.ExposedMatch | internal/app/evaluate.go:282-290 | One prediction with the category of a label without a type exceeds the bound under the key of that label. |
| Evaluation.FilterKeeps | internal/app/evaluate.go:135-163 | Given labels, an event passes exactly when its key is an evaluated type or that of a label with a type; a label with a category lets through its own prefix alone. |
| Evaluation.CategoryOnlyLabelsAreAlwaysMissed | internal/app/evaluate.go:143-163 | With only such labels the filter keeps nothing and nothing is matched. |
| Evaluation.F1OfCounts | internal/app/evaluate.go:265-280 | F1 is twice the matches over labels plus predictions and lies between precision and recall. |
| Evaluation.OverallScore | internal/app/evaluate.go:265-280 | The same for every run of the matcher, which never matches more than there are labels or predictions, also once rounded to four digits. |
| Evaluation.MetricsMean | internal/app/evaluate.go:265-280 | Precision is the matches over the predictions and recall over the labels, zero without any; both are published within half a unit of the fourth digit, the counts exactly. |
| Jobs.JobStore.Create | internal/adapters/webapi/server.go:2866-2874 | A new ID is stored, a known one refused and nothing else changes. |
| Jobs.JobStore.Find | internal/adapters/webapi/server.go:2876-2884 | A row is found if it exists and the caller may see it. |
| Jobs.JobStore.Update | internal/adapters/webapi/server.go:2959-2967 | The whole row of an existing ID is replaced. |
| JobLifecycle.Reconcile | internal/adapters/temporalworkflow/dispatcher.go:56-86 | Corrupt jobs are failed from the listed row, workflows started for the others and cancelled where asked. |
| JobLifecycle.ReconcileFailsCorrupt | internal/adapters/temporalworkflow/dispatcher.go:96-119 | While the listed rows are current, exactly the corrupt jobs fail. |
| JobLifecycle.StartedJobs | internal/adapters/temporalworkflow/dispatcher.go:56-72 | Exactly the listed jobs whose request has version 1 and, trimmed, their owner, label and run are started, in the order of the list. |
| JobLifecycle.FoundCorruptMeans | internal/adapters/temporalworkflow/dispatcher.go:96-119 | Any other becomes a failed job that says why, and nothing else of it changes. |
| JobLifecycle.KeptWithin | internal/adapters/temporalworkflow/activities.go:62-78 | Texts keep what fits of them, percentages stay between 0 and 100. |
| JobLifecycle.Activities.BeginAnalysis | internal/adapters/temporalworkflow/activities.go:32-55 | The row is set running, unless it is missing or flagged for cancellation. |
| JobLifecycle.Activities.ReportProgress | internal/adapters/temporalworkflow/activities.go:62-78 | Progress is written unless the row is missing or flagged. |
| JobLifecycle.Activities.Complete | internal/adapters/temporalworkflow/activities.go:91-117 | The row is completed at 100 percent, unless it is cancelled or flagged. |
| JobLifecycle.Activities.Fail | internal/adapters/temporalworkflow/activities.go:119-139 | The row is failed, unless it is completed or cancelled. |
| JobLifecycle.Activities.Cancel | internal/adapters/temporalworkflow/activities.go:141-162 | The row is cancelled and flagged, unless it is completed or failed. |
| JobLifecycle.Activities.RequestCancellation | internal/adapters/webapi/server.go:1746-1778 | A job the user may see is flagged, unless it has ended. |
| JobRuns.StepKeeps | internal/adapters/temporalworkflow/workflow.go:40-97 | Every step of attempts, reports, redelivery, cancellation, and finalizers with their retries and late effects keeps the invariant, a terminal status and the flag. |
| JobRuns.RunsAreSafe | internal/adapters/temporalworkflow/workflow.go:40-85 | In every run a terminal status stays, a flag stays, and a flagged job never completes. |
| JobRuns.CompletedForGood | internal/adapters/temporalworkflow/activities.go:91-117 | A completed job is at 100 percent without a flag and stays so, within three attempts. |
| JobRuns.CancellationWins | internal/adapters/webapi/server.go:1758-1769 | A cancellation requested while the job is active keeps it from completing, whatever happens before and after. |
| JobRuns.EndsIff | internal/adapters/temporalworkflow/workflow.go:54-97 | A terminal status can still be reached if and only if there is one, the workflow has not ended, or a finalizer given up on can still write. |
| JobRuns.AttemptsRunOut | internal/adapters/temporalworkflow/workflow.go:41-51 | The analysis is attempted three times, then the job is given up. |
| JobRuns.TriesRunOut | internal/adapters/temporalworkflow/workflow.go:87-97 | Every activity that ends the workflow is tried five times, then the workflow ends. |
| JobRuns.AttemptsWrite | internal/adapters/temporalworkflow/activities.go:32-78 | Only an attempt that has not begun begins, only one that has begun reports, and neither writes to a flagged job. |
| JobRuns.OneByOne | internal/adapters/temporalworkflow/workflow.go:40-97 | No event skips or repeats an attempt or a try, and both start with the first; what may still run unobserved are tries that failed while running and completions abandoned for a cancellation. |
| JobRuns.FinishedJobCanHang | internal/adapters/temporalworkflow/workflow.go:57-65 | After five failed tries to complete, the workflow has ended over a running job, and nothing that happens later ends the job. |
| JobRuns.CancelsIff | internal/adapters/temporalworkflow/workflow.go:54-85 | A job that has not ended can still be cancelled if and only if its workflow has neither ended nor begun to fail it, or an abandoned cancellation still runs. |
| JobRuns.LateWriteWins | internal/adapters/postgres/jobs.go:76-94 | A write from an older copy erases whatever was written in between. |
| JobRuns.SplitRunIsAtomic | internal/adapters/postgres/jobs.go:76-94 | If every actor writes over the row it has read, a run of separate reads and writes is a run of single steps. |
| JobRuns.CurrentRunsAreSafe | internal/adapters/postgres/jobs.go:76-94 | So terminal statuses and requested cancellations stay in such runs, and a flagged job never completes. |
| JobRuns.StaleWritesThatBreak | internal/adapters/postgres/jobs.go:76-94 | The outdated writes that change a terminal status are exactly a cancellation request from an active copy, a deferred start from a copy with another status, and an abandoned completion of a job cancelled since. |
| JobRuns.SplitUpdateRevivesCompleted | internal/adapters/webapi/server.go:1749-1769 | With find and write apart, a cancellation request makes a completed job run again. |
| JobRuns.SplitUpdateLosesCancellation | internal/adapters/temporalworkflow/activities.go:64-75 | With find and write apart, a progress report loses a cancellation and the job completes. |
| JobRuns.DeferredStartRevivesCompleted | internal/adapters/webapi/server.go:1616-1631 | Writing the created row back after a start that reported an error queues a completed job again. |
| JobRuns.StaleReportSpoilsCompleted | internal/adapters/temporalworkflow/activities.go:62-78 | A report of a replaced attempt takes a completed job off 100 percent. |
| JobPages.FiltersAgree | internal/adapters/postgres/jobs.go:163-172 | The query selects what the in-memory filter does for the trimmed filter. |
| JobPages.PageLimitMeans | internal/adapters/webapi/server.go:2886-2890 | A limit counts from 1 to 100; any other asks for 25 jobs. |
| JobPages.ListAnalysisJobs | internal/adapters/webapi/server.go:2886-2931 | The first jobs, up to the limit, of all that pass the filter, newest first with ties by falling ID. |
| JobPages.HandlePage | internal/adapters/webapi/server.go:1683-1744 | One page, and a cursor exactly when it is full. |
| JobPages.ListingIsUnique | internal/adapters/webapi/server.go:2921-2926 | The order leaves one listing only. |
| JobPages.RestOfListing | internal/adapters/webapi/server.go:2910-2918 | Behind the cursor lies exactly the rest of the first listing, although newer jobs came. |
| JobPages.FollowCursor | internal/adapters/webapi/server.go:1694-1743 | Following the cursor ends and yields the listing, each job once, for every page size and any ties, also with newer jobs between pages. |
| Outbox.ChooseOldest | internal/adapters/postgres/outbox.go:41-56 | The oldest claimable rows, as many as the limit allows. |
| Outbox.ClaimableMeans | internal/adapters/postgres/outbox.go:44-53 | When a row can be claimed: never once published, 120 seconds after the lock while publishing, from its next attempt on otherwise. |
| Outbox.ClaimedAndMarked | internal/adapters/postgres/outbox.go:58-150 | A claimed row is nobody else's for 120 seconds, a failed one waits out 5 seconds for each of at most ten attempts after its mark and no longer, a published one is never claimed again. |
| Outbox.OutboxTable.ClaimPending | internal/adapters/postgres/outbox.go:29-116 | Those rows become publishing under the worker's lease with one more attempt; no other row changes. |
| Outbox.OutboxTable.MarkPublished | internal/adapters/postgres/outbox.go:118-131 | The row is published, whoever holds it. |
| Outbox.OutboxTable.MarkFailed | internal/adapters/postgres/outbox.go:133-150 | The row is failed with a back-off of 5 seconds for each of at most ten attempts, whoever holds it. |
| Outbox.PublishAndMark | cmd/vod-outbox-relay/main.go:96-117 | An event is sent and its row marked by the outcome, if the mark can be stored. |
| Outbox.ProcessBatch | cmd/vod-outbox-relay/main.go:91-119 | A batch sends what the topic takes, in order, and marks every claimed row; the first mark that cannot be stored ends it. |
| Outbox.BatchSettles | cmd/vod-outbox-relay/main.go:96-117 | Each row of a batch is settled once, by its own outcome. |
| Outbox.BatchIsRun | cmd/vod-outbox-relay/main.go:91-119 | A batch is a run of claims, deliveries and marks of its worker, and a batch that ends early is such a run followed by a crash. |
| Outbox.RunsAreSafe | internal/adapters/postgres/outbox.go:40-65 | In every run of any workers with crashes, refusals and expired leases: published means sent, no row disappears, and every other row can be claimed within two minutes. |
| Outbox.OwnershipSurvives | internal/adapters/postgres/outbox.go:118-150 | Every unexpired claim stays recorded in its row through every step except, exactly, a mark by another worker. |
| Outbox.LeasesAreExclusive | internal/adapters/postgres/outbox.go:49-63 | Without such marks no two workers ever hold an unexpired claim on one row. |
| Outbox.UnmarkedIff | internal/adapters/postgres/outbox.go:133-150 | A step takes the mark off a published row exactly when it reports a refused delivery of it, and then the reporting worker's lease has expired. |
| Outbox.PublishedIff | internal/adapters/postgres/outbox.go:118-150 | A published row stays published throughout a run if and only if no step does that. |
| Outbox.MarkingInTimeIsEnough | internal/adapters/postgres/outbox.go:118-150 | If every worker marks within its own lease, published rows stay published, no mark intrudes, and leases are exclusive. |
| Outbox.EveryRunIsSafe | internal/adapters/postgres/outbox.go:40-65 | From the empty outbox on, every run is safe, and with marks in time published rows stay published. |
| Outbox.CrashIsRecovered | internal/adapters/postgres/outbox.go:40-65 | A crash loses nothing but what its worker has in hand; two minutes later any worker can claim every unpublished row and publish it. |
| Outbox.StaleFailureRepeats | internal/adapters/postgres/outbox.go:133-150 | A stale failure un-publishes a row, and after the back-off it is sent again. |
| Outbox.StaleFailureHappens | internal/adapters/postgres/outbox.go:40-65 | The state for it is reachable. |
| Outbox.IntrusionSplitsTheLease | internal/adapters/postgres/outbox.go:118-150 | After the mark of an intruder two workers can hold unexpired claims on one row. |
| EventSink.Sink.ConsumeOne | cmd/vod-clickhouse-sink/main.go:88-131 | One turn of the loop: store or dead-letter, then commit, moving on after a failure. |
| EventSink.TurnMeans | cmd/vod-clickhouse-sink/main.go:88-145 | A well-formed message goes to the store and any other to the dead-letter topic unless the call fails, and the offset is committed only if that call is known to have worked. |
| EventSink.CommittedIsCovered | cmd/vod-clickhouse-sink/main.go:100-125 | If the sink restarts after every failure, every message below the committed offset is stored or dead-lettered. |
| EventSink.CommitCovers | cmd/vod-clickhouse-sink/main.go:121-125 | A commit keeps that exactly when everything skipped since the last commit is covered. |
| EventSink.SkippedIsLost | cmd/vod-clickhouse-sink/main.go:88-131 | A message left behind the committed offset is never handled again. |
| EventSink.LoopSkipsMessage | cmd/vod-clickhouse-sink/main.go:117-125 | The loop as written loses a message whose insert failed. |
| EventSink.ViewShowsEachOnce | deployments/migrations/clickhouse/002_deduplicated_events.sql:1-18 | However ties are broken: exactly the stored events, each once, by a row that none of its event was ingested after. |
| EventSink.RedeliveryIsInvisible | deployments/migrations/clickhouse/002_deduplicated_events.sql:1-18 | An event stored again with the same content is shown with that content, whenever its rows were ingested. |
| EventSink.CommittedIsVisible | README.md:149 | In a disciplined run every valid message below the committed offset is in the view. |
| UploadCatalog.CatalogStore.Create | internal/adapters/vodstore/catalog.go:44-71 | An upload is in all three stores, or the catalog is unchanged and a working compensation leaves no trace; the new state is that of a run of the system. |
| UploadCatalog.CatalogStore.Resolve | internal/adapters/vodstore/catalog.go:88-115 | The uploaded bytes, from the cache or downloaded into it; a failed metadata write is an error with the file already cached. |
| UploadCatalog.CatalogStore.Update | internal/adapters/vodstore/catalog.go:117-146 | Only the title of an existing record changes. |
| UploadCatalog.CatalogStore.Delete | internal/adapters/vodstore/catalog.go:148-176 | The record goes first; failures after it leave only orphans and are reported; the new state is that of a run of the system. |
| UploadCatalog.SoundStores | internal/adapters/vodstore/catalog.go:178-207 | A record with an object has it with the uploaded bytes, and any cache file equals it. |
| UploadCatalog.RunsAreSound | internal/adapters/webapi/server.go:1365-1370 | With writers one at a time, readers in between, and a failure or crash at any step, no record dangles and every copy is faithful. |
| UploadCatalog.EveryRunIsSound | internal/adapters/vodstore/catalog.go:44-176 | So it is in every run from the empty stores. |
| UploadCatalog.ReadersAreServed | internal/adapters/vodstore/catalog.go:88-115 | A reader gets the uploaded bytes, and gets them unless the download or the metadata fails or the upload was deleted meanwhile. |
| UploadCatalog.CrashLeavesOrphans | internal/adapters/vodstore/catalog.go:58-63 | A crash before the record is saved leaves an object and a file without one. |
| UploadCatalog.UnseenSaveDangles | internal/adapters/vodstore/catalog.go:63-69 | A save that took effect but reported an error dangles after its compensation. |
| UploadCatalog.UnserialisedUpdateDangles | internal/adapters/vodstore/catalog.go:117-141 | An update by a second process brings back a deleted record without its object. |
| RateLimiter.AuthRateLimiter.Sweep | internal/adapters/webapi/security.go:54-61 | The loop removes exactly the expired entries. |
| RateLimiter.AuthRateLimiter.Allow | internal/adapters/webapi/security.go:41-74 | The decision, the new state and the time to wait of the fixed window. |
| RateLimiter.RedisLimiter.Allow | internal/adapters/redisrate/limiter.go:20-59 | The counter of the script and the decision from it. |
| RateLimiter.SameDecisions | internal/adapters/redisrate/limiter.go:74-84 | On every history both limiters decide alike, and sweeping changes no decision. |
| RateLimiter.FewerThanTwiceTheLimit | internal/adapters/webapi/security.go:62-73 | No half-open stretch as long as the window admits twice the limit of requests of a key. |
| RateLimiter.TwiceTheLimitIsTight | internal/adapters/webapi/security.go:62-73 | For every limit some history admits twice the limit less one within a window length. |
| RateLimiter.SweepNeedsOneWindow | internal/adapters/webapi/security.go:54-61 | What the limiter asks of its callers: with two window lengths a sweep for the shorter admits a request that the longer refuses. |
| Base64.RoundTrip | internal/app/auth.go:313-317 | Decoding an unpadded encoding gives the bytes back (section 4 of RFC 4648). |
| Base64.SymbolsAreAlphabet | internal/app/auth.go:315-333 | The 64 symbols are the alphabet in its order, and a character has the value of its symbol. |
| Base64.SameNumber | internal/app/auth.go:315-316 | The four values of a group spell the number its three bytes spell. |
| Base64.DecodesIff | internal/app/auth.go:329-336 | A text can be decoded exactly when, without line breaks, it is made of the alphabet and its last group does not stand alone. |
| Base64.BreaksDoNotMatter | internal/app/auth.go:329-336 | A line break makes no difference wherever it stands, and no other character is left out. |
| PasswordHash.XorInto | internal/app/auth.go:369-371 | The inner loop XORs in place. |
| Bytes.XorMeans | internal/app/auth.go:369-371 | Exclusive or, bit by bit: the lowest bits differ or not, and so do the halves. |
| PasswordHash.Int32Means | internal/app/auth.go:358 | The four bytes, most significant first, spell the block number modulo 2^32. |
| PasswordHash.DeriveBlock | internal/app/auth.go:357-373 | The loop computes T_i of section 5.2 of RFC 8018. |
| PasswordHash.Pbkdf2Key | internal/app/auth.go:352-376 | The nested loops return the first bytes of T_1, T_2 and so on, for every key length and count. |
| PasswordHash.BlocksArePrefixes | internal/app/auth.go:352-376 | Fewer blocks are a prefix of more. |
| PasswordHash.Atoi | internal/app/auth.go:341-350 | The number that digits spell in 64-bit arithmetic, or an error at any other character. |
| PasswordHash.WrapMeans | internal/app/auth.go:347 | A wrapped number fits 64 bits and differs from the number by a multiple of 2^64. |
| PasswordHash.DecimalRoundTrip | internal/app/auth.go:313-325 | Printing and reading back a 64-bit number gives it again. |
| PasswordHash.FormattedSplits | internal/app/auth.go:313-321 | The printed hash splits at its dollar signs into pbkdf2_sha256, the count, the salt and the key. |
| PasswordHash.HashPassword | internal/app/auth.go:307-318 | The printed scheme, count, salt and derived key. |
| PasswordHash.VerifyPassword | internal/app/auth.go:320-339 | True exactly for four readable parts whose key the password derives. |
| PasswordHash.VerifyAfterHash | internal/app/auth.go:307-339 | A password matches the hash of another exactly when both derive the same key; so every password matches its own hash. |
| PasswordHash.RegisterThenLogin | internal/app/auth.go:267-290 | The registered text logs in if trimming leaves it alone, and in general exactly when it derives the key of its trimmed form. |

## Left out

- Image decoding, pixel formulas, ffmpeg and Tesseract: observations and recognition results are inputs.
- IEEE rounding: seconds, scores and thresholds are exact reals, so results may differ where floating point does.
- Phases.DeviationOf: the square root is a parameter, because its value over exact reals is not computable; DeviationIsRoot states what follows from its law.
- WindowOrder.SortReviewWindows: windows with the same start and score may come in any order, as with the unstable sort of the source.
- Evaluation.EvaluatedEvents: case mapping covers ASCII letters only, and so does the comparison of categories.
- Evaluation.MatchEvaluationLabels: categories are compared with ASCII case folding.
- Evaluation.F1OfCounts: about the exact ratios; OverallScore carries the order over to the rounded ones.
- Confidence values, titles, summaries, severities and recommendations of windows, segments and findings.
- JobRuns.RunsAreSafe: finding and writing a row is one step and only the current attempt reports; CurrentRunsAreSafe and StaleWritesThatBreak say what separate steps need.
- JobRuns.StaleWritesThatBreak: about the first outdated write, from a state that single steps reach.
- JobRuns.EndsIff: that some events lead to an end, not that they come; an activity given up on at its timeout may write late, and a row is never lost.
- JobLifecycle.Reconcile: the two lists are inputs, and the text of a decoding error is fixed.
- Text lengths are counted in characters, while the source truncates bytes.
- The job path without a workflow service, and the lease columns of jobs.
- JobPages.FollowCursor: the JSON and base64 form of the cursor is not modelled, and updates between pages are limited to new, newer jobs.
- Database collation of IDs: IDs are ordered by their characters.
- Outbox.ProcessBatch: a mark that reports an error is taken not to be stored, and a failed claim claims nothing; event payloads and headers are not modelled.
- EventSink.CommittedIsCovered: one partition; messages are decoded envelopes, and the wording of dead letters is not modelled.
- EventSink.ViewShowsEachOnce: all columns of an entry come from one row, also among rows ingested in the same millisecond.
- UploadCatalog.CatalogStore.Create: staging, probing and metadata files of an upload, owner checks and path safety are not modelled, and labels are unique.
- RateLimiter.SameDecisions: limit and window are the same for all requests of a history; times are whole milliseconds.
- PasswordHash.Pbkdf2Key: the pseudorandom function is abstract with 32 bytes of output; block numbers wrap at 2^32 as in the source, beyond the length RFC 8018 allows.
- PasswordHash.VerifyAfterHash: the salt is an input, and distinct passwords may derive the same key.
- SQL text, JSON, HTTP routing, sessions, CSRF, telemetry, and the clients of S3, Redis, Temporal, Kafka and ClickHouse: only the state change of each call is kept.
- Coaching rules, guided reviews, dataset checks, command-line flags and the user interface: no hard property.
