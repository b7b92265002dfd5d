# Verified model of the 50hz backend's deterministic core

The backend publishes claims about the GB electricity system: the cleanest window to use power, which
generating unit a site is, which reported events matter, how good past forecasts were. The claims come from
small deterministic algorithms and a few stateful engines behind the I/O. This project models those
components in Dafny and proves what they promise over every input, every run and every order of arrival.

`dafny verify dfyconfig.toml` checks everything.

## Conventions

- Instants are integers of UTC microseconds (timeline buckets are whole seconds, as in the code); values are
  `real`, so rounding of floats plays no part. Rate-limiter clock readings are `real` seconds.
  One guard shows the rounding: the planner compares a float sum of covered seconds with the duration
  (`app/charging/planner.py:237-238`), so a covered window that starts a fraction of a second off a half-hour may be
  refused there, and start-now reported as uncovered; in exact arithmetic, which is what is proved, it never is.
- Python's `sorted` is a stable insertion sort (`Sorting.Sort`); `min`, `max` and dictionary loops are written
  out as loops. A dictionary whose iteration order reaches the result keeps that order in a list beside it;
  where a loop's order cannot reach the result, the model visits the keys in any order.
- Strings that only need equality are plain strings; where Python sorts them, `Text.Le` is the
  code-point order, proved a total order.
- Tuples that the code builds by sorting a set are modelled as sets or maps; the same for sorted record ids.
- A SHA-256 content key is modelled by the content it hashes, which is what taking the hash as injective means.
- The London zone is any function giving, per day, whether summer time is in force from 01:00 UTC of that day
  to 01:00 UTC of the next (the rule since 1996).
- A database transaction works on staged copies and commits once; one writer at a time.

## What is proved

- **Rate limiter** (`RateLimit*.dfy`). The compacting limiter decides like one that keeps its whole admission
  log exactly for the families of policies where no policy with a longer window has a per-client limit below its
  global limit; the per-client limit itself holds over all runs for exactly the same families, and the shipped policies
  are one. Outside them a concrete run of 1,024 fresh clients makes the sweep forget admissions. The global
  limit holds for every family. Also for every family, `Retry-After` is between 1 and the window and is the least such
  number of seconds that reaches the freeing instant (the last blocking expiration of the lists the claim saw), and the
  claim is admitted from that instant on if its policy admitted nobody meanwhile. That a rejected client stays rejected
  until that instant holds, policy by policy, exactly when no other policy has a shorter window or the policy's
  per-client limit is no less than its global one, so for a whole family exactly when its sweep is safe; for any other
  pair of policies a concrete run admits the client early.
- **Flexible-use planner** (`Forecast`, `Planner`, `PlanOptimality`, `FlexiblePlan`). The recommendation is optimal among
  windows starting at any microsecond, not only among the half-hours tried, because an off-boundary window
  averages its two aligned neighbours; no recommendation is given exactly when no covered window exists.
- **Event grouping, ranking and revision chains** (`Event*.dfy`, `GroupingRule`). The mutating fixpoint loop yields the connected components
  of the overlap graph; the ranked selection is a function of the set of revisions; the one-step append check
  accepts exactly what keeps the whole chain valid; folding the deltas rebuilds every revision's tracked fields.
- **Asset linker** (`Asset*.dfy`). The inverted token index never changes a decision, and after the collision pass the links
  are one-to-one, with an if-and-only-if for who is linked.
- **Half-hour materialisation** (`HalfHours`, `HalfHourLaws`, `Materialize`). The dictionary-filling job computes a declarative
  reading of the raw series; windows concatenate; no record is lost; order and superseded records are invisible; no
  validator ever fires.
- **Forecast verification and its ledger** (`Vintages`, `ForecastVerify`, `AppendOnly`, `LedgerJob`, `EvidenceOrder`). Horizon buckets partition
  the leads, summaries pass the schema's checks, the ledger's revisions are gapless over any sequence of
  bundles, the conflict error is unreachable, and a second run over the same evidence, in any order,
  inserts nothing.
- **Settlement calendar** (`Settlement`). Periods tile time, instant and period are mutual inverses, guards never fire, and the
  loop and the closed form agree.
- **Physical Notification profiles** (`PlannedProfiles`, `Consolidation`, `PlanLevels`). The check on neighbours separates all pairs;
  an asset id and source id together have at most one planned level at an instant, across all periods; older snapshots
  change nothing. An asset id alone does not: one notification with its source id and one without become two profiles,
  and a result plans every asset at most once at an instant exactly when no two newest segments of one asset with
  different source ids share an instant.
- **Grid timeline** (`FuelMix`, `TimelineBuckets`, `Timeline`, `TimelineLaws`). The one-pass carry-forward loop equals a
  declarative lookup of the newest readings; the fuel mix conserves generation.

The modules `PlanMeaning`, `SelectionMeaning`, `LinkMeaning`, `IntervalMeaning`, `VerificationMeaning` and
`TimelineMeaning`, and the last sections of `EventHistory`, `Settlement`, `AppendOnly`, `PlanLevels` and `FuelMix`, say
what each result means in the fields of the records it is made from, without the functions that compute it: which
event comes first, which pair of site and unit fits, which record is the last correction, what a sample carries.

Two places where the code is followed and its prose is not. The grouping rule text
(`app/events/relevance.py:27-30`) speaks of overlapping windows; the code groups chains of overlaps, so two
members of a group need not overlap each other: `GroupingRule.ChainGroupedApart` is an input where they do not, and
`GroupingRule.RuleHoldsIff` and `GroupsObeyIff` say that the text holds exactly where overlap is transitive on the
events of each reliable asset. The bucket of an instant (`app/api/presenter.py:279-282`) truncates towards zero, so a
fraction of a second before 1970 can fall before its bucket's start (`TimelineBuckets.LastOf1969`);
`TimelineBuckets.BucketHoldsInstant` says exactly when, and `TimelineLaws.NewestIsLastIff` that the newest reading is
the last observation for all cursors exactly when no reading falls so.

## Model

| member | source | states |
|---|---|---|
| RateLimit.DiscardBefore | app/rate_limit.py:146-148 | the loop pops exactly the expired prefix of the calls |
| RateLimit.Limiter.SweepClients | app/rate_limit.py:122-126 | above 1,024 keys every client list is pruned by the claiming policy's cutoff and empty ones are dropped; otherwise nothing changes |
| RateLimitLog.SweepTells | app/rate_limit.py:122-126 | up to 1,024 keys nothing changes; above, every key left has an unexpired time at its front and no key that has one is dropped |
| RateLimit.Limiter.TryClaim | app/rate_limit.py:114-143 | the new dictionaries and the verdict of one claim are those of the transition all run theorems are about |
| RateLimitLog.ClaimTracksGlobal | app/rate_limit.py:127-142 | one claim keeps every policy's list equal to the unexpired part of the admission log, at every later cutoff |
| RateLimitLog.ClaimTracksClient | app/rate_limit.py:122-142 | one claim keeps each client list a suffix of the unexpired log, and equal to it for a policy with the shortest window |
| RateLimitLog.LimiterRefinesLog | app/rate_limit.py:114-143 | over every clocked run of safe policies the limiter gives the verdicts, Retry-After included, of a reference that never forgets |
| RateLimitLog.GlobalLimitHolds | app/rate_limit.py:132-133 | no span as long as the window holds more than the global limit of admissions, whatever the other policies |
| RateLimitLog.ClientLimitHolds | app/rate_limit.py:134-135 | the same for one client's limit, for safe policies |
| RateLimitSweep.SweepInvisibleIff | app/rate_limit.py:122-126 | the sweep never shows in any run if and only if every policy with a longer window than another has per-client limit at least its global limit |
| RateLimitSweep.ExposingDiffers | app/rate_limit.py:122-126 | the concrete run on which limiter and reference part for an unsafe pair |
| RateLimitSweep.ClientLimitIff | app/rate_limit.py:120-142 | the per-client limit holds over all runs if and only if the policies are safe |
| RateLimitSweep.DefaultsAreExact | app/rate_limit.py:34-46 | the shipped policies are decided as by the full log and keep both limits in any minute |
| RateLimitRetry.RetryAfterReaches | app/rate_limit.py:131-140 | for every family a claim is rejected iff it sees a full list, and then Retry-After is within 1 and the window and is the least such number of seconds reaching the freeing instant |
| RateLimitRetry.FreedThenAdmitted | app/rate_limit.py:129-142 | for every family the claim is admitted from the freeing instant on if its policy admitted nobody in between |
| RateLimitRetry.FreedIsLogs | app/rate_limit.py:129-139 | under an unexposed policy the freeing instant is the one the full log gives |
| RateLimitRetry.RetryAfterExact | app/rate_limit.py:131-142 | the two halves together: rejected before the freeing instant under an unexposed policy, admitted from it on under any, if its policy admitted nobody |
| RateLimitRetry.AdmittedEarly | app/rate_limit.py:122-126 | the concrete run that admits a rejected client once the shorter of two windows has passed |
| RateLimitRetry.HeldIffUnexposed | app/rate_limit.py:122-140 | over all runs a client rejected under the policy stays rejected until the freeing instant iff no other policy has a shorter window or the per-client limit is no less than the global one |
| RateLimitRetry.HeldIffSafe | app/rate_limit.py:122-140 | the same for a family, iff its sweep is safe |
| Forecast.PrepareIff | app/charging/planner.py:186-207 | preparation succeeds exactly when all points are aligned half-hours and no two, neighbours or not, overlap |
| Forecast.IntegralInterpolates | app/charging/planner.py:85-97 | the integral of an off-boundary window is the convex combination of its two aligned neighbours' |
| Planner.PointCovering | app/charging/planner.py:252-263 | bisection finds the point covering an instant, and nothing exactly when none does |
| Planner.WindowAt | app/charging/planner.py:210-249 | terminates with a window exactly when every instant is covered, with average the exact integral over the duration and the record ids met in order |
| PlanOptimality.AlignedIsEnough | app/charging/planner.py:79-138 | best among half-hour starts implies best among all starts in the bounds |
| PlanOptimality.WindowExistsIff | app/charging/planner.py:79-130 | some covered window exists in the bounds if and only if a run of the required number of consecutive non-gap slots does |
| FlexiblePlan.Steps | app/charging/planner.py:359-363 | every half-hour step from start to before end, once |
| FlexiblePlan.StepsInclusive | app/charging/planner.py:366-370 | the same including the end |
| FlexiblePlan.Gaps | app/charging/planner.py:75-77 | exactly the expected starts at which no point starts, in order |
| FlexiblePlan.CompleteCandidates | app/charging/planner.py:80-97 | exactly the windows of covered starts, in order |
| FlexiblePlan.LowestAverage | app/charging/planner.py:132-138 | a candidate no other precedes by raw average, then start |
| FlexiblePlan.Recommend | app/charging/planner.py:72-138 | a recommendation exists iff any covered window does, lies in the bounds, is optimal over all starts, and the coverage report lists exactly the gaps and counts exactly the complete candidates |
| FlexiblePlan.CompareStartNow | app/charging/planner.py:266-313 | fails exactly as preparing the other forecast fails; otherwise compares with the exact start-now window |
| FlexiblePlan.PlanFlexibleUse | app/charging/planner.py:40-172 | each error case in the source's order; otherwise a plan sound for its forecast, consistent with the result model's validators, with the stated comparison |
| FlexiblePlan.SoundIsOptimal | app/charging/models.py:136-140 | on the forecast as handed in: unavailable iff no covered window, else no covered window has a lower average, nor an equal one and an earlier start |
| FlexiblePlan.StartNowNeverCleaner | app/charging/planner.py:294 | inside the bounds on the same forecast the start-now delta is never negative |
| PlanMeaning.StatusTells | app/charging/planner.py:145-176 | with a recommendation: when start-now is covered and of the same series, the plan is lower-carbon iff its average is positive and exceeds the recommended by 5 and by 5 per cent; delta, percentage and differing fields are exactly those of the two averages and series |
| PlanMeaning.NothingTells | app/charging/planner.py:115-130 | without one: insufficient coverage, no figures, and exactly the differing fields |
| PlanMeaning.ArgumentsTell | app/charging/planner.py:58-73 | the arguments that are accepted, and the first complaint otherwise |
| PlanMeaning.PrepareTells | app/charging/planner.py:197-206 | why a forecast is refused: the first point in time order of the wrong length or off the half-hour, or otherwise two points that share an instant |
| PlanMeaning.AverageIsMean | app/charging/planner.py:225-239 | on the grid a window's average is the mean of its half-hours' intensities |
| PlanMeaning.VisitedNames | app/charging/planner.py:233-234 | the records named are exactly those of the points met, never one twice in a row |
| PlanMeaning.VisitedInOrder | app/charging/planner.py:233-234 | the records named keep the order of the points |
| EventOverlap.Absorb | app/events/relevance.py:257-265 | one pass moves events without loss, keeps the component connected, and changes nothing only if the rest is apart from it |
| EventOverlap.Grow | app/events/relevance.py:254-265 | the inner loop terminates with a connected component that nothing remaining overlaps |
| EventOverlap.Components | app/events/relevance.py:247-266 | the outer loop yields the connected components: every event in exactly one, connected inside, apart outside |
| EventGroups.ComponentIsCluster | app/events/relevance.py:253-266 | a component is exactly what chains of overlaps join to any of its members |
| EventGroups.AssetGroups | app/events/relevance.py:247-276 | one asset's groups are its clusters, each once, keyed by the asset and, only when it has several, the least event id |
| EventRanking.LatestRevisions | app/events/relevance.py:218-232 | fails iff two unequal records share event id and revision; otherwise each event's newest revision, once |
| EventRanking.GroupEligible | app/events/relevance.py:235-277 | every eligible event in exactly one group: its overlap cluster within its reliable asset, or alone |
| GroupingRule.RuleHoldsIff | app/events/relevance.py:27-30 | any two events of a group overlap, as the rule text says, iff overlap is transitive on each reliable asset's events |
| GroupingRule.GroupsObeyIff | app/events/relevance.py:235-275 | the same of the groups that are built |
| GroupingRule.ChainGroupedApart | app/events/relevance.py:251-266 | three valid reports of one asset in one group, of which the first and last do not overlap |
| EventKeys.KeyTransitive | app/events/relevance.py:301-312 | the sort key is transitive |
| EventKeys.KeyAntisymmetric | app/events/relevance.py:301-312 | ties are impossible between different events |
| EventKeys.Representative | app/events/relevance.py:197 | the best member under the sort key |
| EventSelection.ScoreEligible | app/events/relevance.py:192-193 | exactly the newest revisions that are neither terminal nor ended, with their scores |
| EventSelection.RankRelevantEvents | app/events/relevance.py:180-215 | fails iff the limit is not 1 to 3 or records conflict; otherwise the first groups of the one ranking of all groups, each with its best member |
| EventSelection.RankingUnique | app/events/relevance.py:209 | a pool of events has one ranking only |
| EventSelection.SelectionIgnoresOrder | app/events/relevance.py:180-215 | any order and repetition of the same revisions gives the same selection |
| SelectionMeaning.KeyMeans | app/events/relevance.py:301-312 | the sort key is score, then authority, then reported megawatts before missing and larger before smaller, then later publication, then smaller id |
| SelectionMeaning.OverlapMeans | app/events/relevance.py:278-298 | windows overlap iff they share an instant |
| SelectionMeaning.ClusterMeans | app/events/relevance.py:238-266 | two events are grouped iff they are one or a chain of overlaps of reliable reports on one asset joins them |
| SelectionMeaning.SelectionTells | app/events/relevance.py:180-215 | the selected groups come in that order, each led by its first event; what competes and is left out comes after all leaders, and only because the limit is reached; and what competes are the newest, unclosed, unended revisions |
| Text.LeMeans | app/events/relevance.py:311 | the order on ids is by the first differing character |
| EventHistory.AppendDecides | app/events/revisions.py:184-193 | the single-step check accepts a revision iff the whole extended chain is valid; the second validation never refuses |
| EventHistory.ChainShape | app/events/revisions.py:123-131 | revisions are numbered 1..n, open only first, terminal only last, published in order |
| EventHistory.OfferKeeps | app/events/revisions.py:184-211 | over any run of offered revisions the history stays valid, only grows at its end, and a terminal history never changes |
| EventHistory.NoChangeIff | app/events/revisions.py:157-175 | an otherwise acceptable revision is refused for lack of changes iff no tracked field differs |
| EventHistory.DeltaRoundTrip | app/events/revisions.py:157-181 | a delta leads from the old tracked fields to the new, and reversed from the new to the old |
| EventHistory.ReplayRebuilds | app/events/revisions.py:145-181 | folding the deltas over the first revision rebuilds the tracked fields of every later one |
| EventHistory.AppendTells | app/events/revisions.py:145-211 | a revision is taken up iff it is the event's next, published no earlier, the event is not closed, it does not reopen it and something tracked changed; the first failing condition is the error |
| EventHistory.DeltaTells | app/events/revisions.py:157-182 | the delta lists exactly the tracked fields that differ, with both values |
| EventHistory.HistoryTells | app/events/revisions.py:71-92 | what every revision of a lifecycle satisfies, field by field |
| AssetNames.CandidateSharesToken | app/assets/linking.py:403-435 | every candidate shares a distinguishing token with its site |
| AssetLinks.TableOffered | app/assets/linking.py:234-241 | an asset id is in the table iff some unit of the list offers it, with that unit's candidate |
| AssetLinks.TableBest | app/assets/linking.py:239-241 | no unit's candidate outranks the entry of its asset id |
| AssetLinks.StrongestMethod | app/assets/linking.py:263 | the method of the highest rank: exact iff any candidate is exact |
| AssetLinks.LinkSite | app/assets/linking.py:223-290 | the decision is that of the table of best candidates, and meets the decision invariant |
| AssetBatch.BuildIndex | app/assets/linking.py:299-306 | each position is listed under exactly its unit's distinguishing tokens |
| AssetBatch.PossiblePositions | app/assets/linking.py:310-313 | exactly the positions sharing a distinguishing token with the site |
| AssetBatch.PrefilterExact | app/assets/linking.py:314-315 | leaving out units that offer nothing keeps the table |
| AssetBatch.IndexedIsEnough | app/assets/linking.py:299-315 | the indexed subset gives the table of the whole list |
| AssetBatch.LinkEach | app/assets/linking.py:308-315 | every indexed decision is the brute-force decision |
| AssetCollisions.DemoteAt | app/assets/linking.py:327-343 | in-place demotion of exactly the listed positions |
| AssetCollisions.ResolveCollisions | app/assets/linking.py:316-344 | the pass replaces exactly the decisions whose asset another decision selected |
| AssetCollisions.SelectedIff | app/assets/linking.py:321-323 | a decision keeps its asset iff no other decision selected it, and is then unchanged |
| AssetCollisions.OneToOne | app/assets/linking.py:293-297 | no two surviving decisions share an asset |
| AssetCollisions.ConflictsNamed | app/assets/linking.py:324-342 | a demoted decision names exactly the other record ids that selected its asset |
| AssetCollisions.ResolvedValid | app/assets/linking.py:105-132 | demoted decisions still meet the invariant |
| AssetCollisions.LinkSites | app/assets/linking.py:293-344 | the brute-force decisions with collisions resolved; linked iff sole candidate of this site and of no other; one-to-one; all valid |
| LinkMeaning.CandidateMeans | app/assets/linking.py:347-400 | a unit is a candidate iff the capacities are within 0.1 MW or 2 per cent, the fuel does not contradict, and the display name is the site's or a weaker name relation has an agreeing fuel or operator; the evidence listed says so |
| LinkMeaning.TableMeans | app/assets/linking.py:247-255 | the entry of an asset comes from the first of its units with the best name relation |
| LinkMeaning.DecisionsTell | app/assets/linking.py:234-344 | each answer in the fields of site and units: unlinked iff no unit fits, linked iff all fitting units are of one asset that is no other site's only one, with exactly the fitting assets listed |
| Materialize.SelectAt | app/history/materialize.py:373-393 | the records of one timestamp give one sample of the highest revision, or none iff its values conflict |
| Materialize.SelectHighestRevisions | app/history/materialize.py:365-394 | fails only on a conflict; otherwise one sample for exactly the recorded timestamps |
| Materialize.Bucket | app/history/materialize.py:223-234 | each half-hour's list is its raw records in order; the rest is outside |
| Materialize.BucketSelected | app/history/materialize.py:236-240 | each half-hour's samples are those selected within it |
| Materialize.AssessInterval | app/history/materialize.py:247-325 | one interval equals the interval read off the whole raw series |
| Materialize.Walk | app/history/materialize.py:242-336 | the loop builds the consecutive intervals, the emitted observations and the sample count |
| Materialize.MaterializeHalfHours | app/history/materialize.py:202-362 | argument errors in order; then fails iff a conflict lies in the window; otherwise the declarative intervals, all valid, with all raw records accounted for |
| HalfHourLaws.ConflictSplits | app/history/materialize.py:381-385 | a conflict is raised on a window iff on one of its parts |
| HalfHourLaws.IntervalsSplit | app/history/materialize.py:244-336 | materialising a window is materialising its parts one after the other, intervals and emitted series |
| HalfHourLaws.EvidenceConserved | app/history/materialize.py:173-177 | every raw record is in exactly one interval or outside |
| HalfHourLaws.IntervalValid | app/history/materialize.py:118-142 | the interval validator never fires |
| HalfHourLaws.WindowValid | app/history/materialize.py:167-199 | nor on any half-hour of a window, which follow one another without gap |
| HalfHourLaws.SupersededInvisible | app/history/materialize.py:374-379 | reordering, repeating and adding superseded records keep every timestamp's top records |
| HalfHourLaws.EmittedStable | app/history/materialize.py:327-335 | and then the emitted series, record ids included, is unchanged |
| HalfHourLaws.FullCoverageIff | app/history/materialize.py:276-279 | at threshold 1 an interval has a value iff the recorded timestamps are exactly the cadence grid; then its samples are the highest revisions of the grid times, in order, and the value is their total over their number |
| HalfHourLaws.MeanBetween | app/history/materialize.py:421-428 | the mean summed by quotients is the total over the count and lies between the extremes |
| HalfHourLaws.ValueBetween | app/history/materialize.py:295-296 | an emitted value lies within the newest values recorded in its half-hour |
| IntervalMeaning.IntervalTells | app/history/materialize.py:247-333 | for every threshold: a value exists iff nothing is recorded off the cadence grid and enough of the grid is, and is the mean of the newest records there; samples, gaps, strays and reasons are exactly those of the raw records |
| IntervalMeaning.RecordsTell | app/history/materialize.py:320-322 | a half-hour names exactly the records made in it |
| IntervalMeaning.EmittedTells | app/history/materialize.py:326-335 | the emitted series shows exactly the half-hours with a value, in time order |
| Vintages.BucketsPartition | app/forecast_verification/core.py:64-72 | the buckets partition the leads of 0 to 48 hours, both ends included |
| Vintages.LatestCorrections | app/forecast_verification/core.py:368-395 | per identity the correction outranked by none, for exactly the in-window identities |
| Vintages.SelectVintages | app/forecast_verification/core.py:361-428 | one pick per identity with lead 0 to 48 hours, in its one bucket, sorted, identities distinct |
| ForecastVerify.SelectOutturns | app/forecast_verification/core.py:431-453 | the latest correction of every in-window timestamp |
| ForecastVerify.PairUp | app/forecast_verification/core.py:306-346 | a pair for exactly the forecasts whose valid time has an outturn, in order |
| ForecastVerify.VerifyForecasts | app/forecast_verification/core.py:271-358 | refuses exactly a window that is not positive; otherwise the bundle of one selection of vintages and one of outturns |
| ForecastVerify.BundleKeysDistinct | app/forecast_verification/core.py:368-395 | pairs of a bundle have distinct storage identities and join a pick with the outturn of its valid time |
| ForecastVerify.ExpectedAddUp | app/forecast_verification/core.py:397-413 | expected counts over the buckets sum to the number of in-window identities with lead 0 to 48 hours |
| ForecastVerify.SummarySound | app/forecast_verification/core.py:456-573 | counts, coverage, bias within MAE, and display exactly from 100 samples and nine tenths coverage |
| ForecastVerify.SummariesSound | app/db/models.py:1447-1483 | every summary of a bundle passes the results table's checks |
| VerificationMeaning.PicksTell | app/forecast_verification/core.py:361-428 | the picks are, once each and in order, the records of highest revision, then capture, then id of every forecast made up to two days ahead, in the horizon of its hours |
| VerificationMeaning.OutturnsTell | app/forecast_verification/core.py:431-455 | the outturns are those of highest revision, then retrieval, then id |
| VerificationMeaning.PairsTell | app/forecast_verification/core.py:299-345 | each pair joins the last correction of a forecast with that of the outturn of its valid time, with forecast minus outturn as error; every forecast with an outturn is paired, once |
| VerificationMeaning.ContentMeans | app/forecast_verification/core.py:304-328 | two pairs have equal content iff they agree on everything verified |
| VerificationMeaning.SummariesTell | app/forecast_verification/core.py:456-573 | per horizon: expected forecasts, pairs, mean absolute error, bias, weighted error, coverage, status and reason, from the pairs' own values |
| EvidenceOrder.VerificationIgnoresOrder | app/forecast_verification/core.py:271-358 | the same evidence in any order and repetition gives the same bundle |
| EvidenceOrder.RerunInsertsNothing | app/forecast_verification/job.py:452-468 | persisting the same evidence again inserts neither a pair nor a result, whatever the tables held |
| AppendOnly.PersistChains | app/forecast_verification/job.py:459-468 | a bundle keeps each identity's revisions 0..n with neighbours differing, and stored rows unchanged |
| AppendOnly.LedgerSafe | app/forecast_verification/job.py:414-469 | the same over any sequence of bundles |
| AppendOnly.ReplayInsertsNothing | app/forecast_verification/job.py:459-461 | replaying a bundle inserts nothing |
| AppendOnly.LatestRows | app/forecast_verification/job.py:440-448 | per identity the read row with the highest revision |
| AppendOnly.LatestIsLast | app/forecast_verification/job.py:419-448 | for an identity whose rows were all read, it is the last of the identity's history |
| AppendOnly.InsertIgnoringConflicts | app/forecast_verification/job.py:516-522 | inserts rows that meet no stored identity and revision; all of them when none does |
| AppendOnly.ChainedInserts | app/forecast_verification/job.py:523-524 | rows that extend gapless chains meet no conflict |
| AppendOnly.PersistTells | app/forecast_verification/job.py:414-469 | after a persist the newest row of each identity has the bundle's content, and one row was added iff it had not |
| AppendOnly.PersistAddsOnly | app/forecast_verification/job.py:444-465 | no row is added for any other identity |
| LedgerJob.VerifiedIsProper | app/forecast_verification/core.py:298-358 | what verification returns has distinct identities and one window |
| LedgerJob.LatestPairs | app/forecast_verification/job.py:418-448 | the read from least to greatest valid time answers every identity of the bundle as the whole table would |
| LedgerJob.InsertBatch | app/forecast_verification/job.py:509-525 | a batch within its bound is inserted in full; the conflict error is unreachable |
| LedgerJob.AppendPairs | app/forecast_verification/job.py:414-469 | batched append equals the specified persist; inserted and unchanged add up to the pairs |
| LedgerJob.AppendResults | app/forecast_verification/job.py:528-583 | the same for the four results |
| LedgerJob.StoredTells | app/forecast_verification/job.py:414-583 | once a bundle is persisted the newest row of each pair's and each result's identity holds its content |
| LedgerJob.Store.RecordStarted | app/forecast_verification/job.py:316-357 | the run is running with one attempt more |
| LedgerJob.Store.RecordFailure | app/forecast_verification/job.py:391-411 | an existing run becomes failed with zero counts |
| LedgerJob.Store.PersistSuccess | app/forecast_verification/job.py:359-389 | both appends and the run row in one step, with exact counts, chains kept |
| LedgerJob.Store.RunTarget | app/forecast_verification/job.py:230-298 | when a run is skipped, fails or succeeds; failure leaves the evidence tables; success appends exactly the evidence's bundle |
| Settlement.MidnightExact | app/domain/settlement.py:22-31 | a local midnight is one instant |
| Settlement.DayOfInstant | app/domain/settlement.py:71-76 | an instant has a local date iff it lies between that date's bounds |
| Settlement.DayLength | app/domain/settlement.py:34-36 | 46, 48 or 50 periods by the offsets at the day's ends, filling the day |
| Settlement.InstantInPeriod | app/domain/settlement.py:66-78 | every instant resolves, without either error, to a period containing it |
| Settlement.PeriodResolves | app/domain/settlement.py:39-78 | every instant of a period resolves to that period |
| Settlement.PeriodsTile | app/domain/settlement.py:39-63 | no instant is in two periods |
| Settlement.DayList | app/domain/settlement.py:59-63 | a day's list runs from midnight to midnight without gap, overlap or range error |
| Settlement.ExpectedIntervals | app/history/calendar.py:13-35 | the calendar loop builds the closed form's list, within 50 periods |
| Settlement.PeriodTells | app/domain/settlement.py:39-56 | a period lasts half an hour, shows both clocks at its ends, and starts on its date, the first at local midnight |
| PlannedProfiles.LevelBetween | app/assets/models.py:170-181 | a segment has a level exactly where it covers the instant, between and meeting its end levels |
| PlannedProfiles.LevelIsLinear | app/assets/models.py:178-181 | the level moves in proportion to the time passed |
| PlannedProfiles.NeighboursSuffice | app/assets/models.py:217-218 | the check on neighbours separates every pair |
| PlannedProfiles.BuildProfile | app/assets/models.py:192-219 | accepts exactly non-empty segments of the profile's identity that are apart |
| PlannedProfiles.ProfileLevel | app/assets/models.py:225-248 | the first segment with a level gives it |
| PlannedProfiles.LevelIsTheCovering | app/assets/models.py:234-248 | that is the one covering segment's level; none exactly in a gap |
| Consolidation.GroupSegments | app/assets/elexon.py:105-116 | keys by first appearance, each with its segments in order |
| Consolidation.UniqueShapes | app/assets/elexon.py:120-131 | each shape of the newest snapshot once |
| Consolidation.ConflictShows | app/assets/elexon.py:132-138 | sorted neighbours are apart iff no two different newest shapes share an instant |
| Consolidation.ConsolidateGroup | app/assets/elexon.py:119-147 | fails iff the newest snapshot conflicts; otherwise its shapes, once, in order and pairwise disjoint; the profile's own checks always pass |
| Consolidation.ConsolidatePhysicalNotifications | app/assets/elexon.py:94-157 | fails on the first conflicting key, otherwise one profile per key, sorted |
| PlanLevels.OneProfileEach | app/assets/elexon.py:148-157 | success means no conflict anywhere, one profile per key, in order |
| PlanLevels.ProfileTellsPlan | app/assets/models.py:225-248 | a profile's level is that of the newest segment covering the instant, none iff none covers it |
| PlanLevels.OlderChangesNothing | app/assets/elexon.py:99-102 | reordering, repeating and adding older snapshots change no key, conflict or level |
| PlanLevels.AssetLevelUnique | app/assets/models.py:164-166 | across all settlement periods an asset id and source id together have at most one level at an instant |
| PlanLevels.OnePlanIff | app/assets/elexon.py:107-157 | a result plans each asset id at most once at an instant iff no two newest segments of one asset with different source ids share an instant |
| PlanLevels.TwoSourcesTwoLevels | app/assets/elexon.py:109-114 | the input that gives one asset two levels: the same notification with and without its source id |
| PlanLevels.ResultTells | app/assets/elexon.py:94-157 | each profile has the last retrieved segments of one asset, source and period, in time order and apart, with every such shape; profiles come by date, period and source |
| FuelMix.AggregateGeneration | app/api/presenter.py:91-95 | the dictionary holds each label's clamped sum |
| FuelMix.LabelsConserve | app/api/presenter.py:91-95 | the labels' sums add up to all that was generated |
| FuelMix.MixAddsUp | app/api/presenter.py:104-117 | presented megawatts add up to the generation, and shares to one unless there is none |
| FuelMix.MixListsLabels | app/api/presenter.py:105-116 | each label once with its sum, ranked by size and then name |
| FuelMix.MixTells | app/api/presenter.py:65-117 | each row is a presented name with the positive output of its kinds and its share of all positive output |
| TimelineBuckets.BucketHoldsInstant | app/api/presenter.py:279-282 | when an instant lies inside its bucket |
| TimelineBuckets.LastOf1969 | app/api/presenter.py:279-282 | an instant that falls before its bucket's start |
| TimelineBuckets.LatestByBucket | app/api/presenter.py:285-297 | the dictionary holds each bucket's newest reading, first listed in a tie |
| TimelineBuckets.LastIsNewest | app/api/presenter.py:294-296 | the lookup is the newest reading of its buckets, none iff they are empty |
| TimelineBuckets.LastCarries | app/api/presenter.py:359-364 | carrying forward one cursor equals looking up the whole range |
| TimelineBuckets.LastBucketCarries | app/api/presenter.py:365-366 | the same for the list of one bucket's generation |
| Timeline.LatestForecastsByBucket | app/api/presenter.py:300-321 | each bucket's wanted forecast by issue, then retrieval, then listing |
| Timeline.LastForecastIsNewest | app/api/presenter.py:310-320 | no wanted forecast of the bucket is newer |
| Timeline.Refresh | app/api/presenter.py:359-366 | one cursor's update gives the declarative lookup at that cursor |
| Timeline.GreatestAge | app/api/presenter.py:368-376 | the age test is that nothing required is older than the gap |
| Timeline.Emit | app/api/presenter.py:377-399 | a sample exactly when due and ready |
| Timeline.WalkObserved | app/api/presenter.py:355-400 | the loop's samples are the lookup's samples over all cursors |
| Timeline.WalkForecast | app/api/presenter.py:408-422 | the same for the forecast loop |
| Timeline.PresentTimeline | app/api/presenter.py:324-429 | the one-pass timeline equals the declarative one |
| TimelineLaws.ForecastStartsAfterNow | app/api/presenter.py:405-407 | forecast cursors start on the grid after now |
| TimelineLaws.TimelineShape | app/api/presenter.py:350-429 | strictly increasing grid timestamps in the window's buckets, observed until now and forecast after, and every due and ready sample is present |
| TimelineLaws.ReadyIff | app/api/presenter.py:368-383 | ready iff newest demand and carbon and the latest generation bucket exist and hold nothing older than the gap |
| TimelineLaws.SampleTells | app/api/presenter.py:384-399 | a sample carries the newest demand and carbon, the latest bucket's mix, and a frequency iff fresh |
| TimelineLaws.NewestIsLastObservation | app/api/presenter.py:285-297 | when no reading falls before its bucket, the newest of the buckets is the last observation in time |
| TimelineLaws.NewestIsLastIff | app/api/presenter.py:279-297 | over all cursors the newest of the buckets is the last observation iff every reading lies inside its bucket |
| TimelineMeaning.ForecastTells | app/api/presenter.py:402-422 | a forecast sample is presented iff its grid point is after now, in the window's buckets, and has both forecasts, with the values of the latest issued, then latest retrieved, then first listed |
| TimelineMeaning.ObservedTells | app/api/presenter.py:355-400 | an observed sample is presented iff its grid point is up to now, in the window's buckets, and demand, carbon and generation are current there, with exactly their values |

## Left out

- Rate limiter: choosing the policy of a request (first match of method and prefix) and the client key from headers; a client is a number.
- Planner: rounding of the published averages and deltas, the coverage fraction and summary text; the raw average is what is compared and proved. The `fact_class` identity field has one possible value and cannot differ.
- Event scores: the score tables are a parameter of the ranking; eligibility is modelled. Event ids of a group are a set, which the code presents sorted. Times enter the sort key exactly, not as float timestamps.
- Event revisions: model and delta version strings.
- Asset linking: Unicode normalisation, token splitting, the technology table and the wording of evidence; names come with tokens, technologies with their fuel set, evidence as its kind and field. Capacities are finite.
- Materialisation: `retrieved_at` of raw records, which the job does not read; float overflow of a mean.
- Verification: metric registry fields that are constants of a target, and the source watermark of a result (a maximum).
- LedgerJob.Store.RunTarget: does not model database or clock errors while a transaction runs; the load raising is the modelled failure, and a transaction is atomic.
- Verification runner: the global lock, dry runs, command line and row-count bounds; it calls the modelled step once per target.
- Settlement: the non-integer period type error, and London rules before 1996.
- Profiles: provenance other than retrieval time and endpoint, and which of several identical newest segments is kept.
- Timeline: rounding of megawatts and shares, hourly changes, `present_current`, source metadata and freshness.
- History comparisons, event identity, game resolution, briefing, budget and geography code: easier instances of the same patterns, or trigonometry.
- Routes, persistence text, HTTP clients, configuration and logging: I/O.
