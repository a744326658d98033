# Compliance platform model

A model in Dafny of the parts of the compliance platform's backend where state, order and
arithmetic interact: name screening, the watchlist cache, the batch and monitoring tasks, the KYC,
EDD and freeze lifecycle, billing, ISAR review and STR filing, the rate limiter and wallet scoring.
Check everything with `dafny verify dfyconfig.toml`.

## How it is modelled

- **Screening.** `find_matches` is the two-pass algorithm of the source (a collector with running
  maxima, a dictionary that keeps one row per entry, a stable sort) proved against one declarative
  predicate, `FindMatches.IsScreening`: exactly the best row of every entry with a qualifying name,
  higher scores first, ties in order of the first qualifying name. `ScreeningLaws` then reasons about that
  predicate alone. The edit distance is the textbook recursion, itself proved to be the least cost of
  an edit script. `token_set_ratio`, Jaro-Winkler, Soundex and Metaphone are arbitrary functions,
  the similarities within their ranges. Scores are integers in tenths.
- **Cache.** `WatchlistCache` has the Redis commands as methods and the protocol as a state machine
  in which table writes, refresh reads, refresh pipelines, evictions, hits and misses interleave freely. `CacheOrder`
  says when such a run moves the cached state back; an eviction in between does not count as a move.
- **Tasks.** The batch and monitoring tasks keep the durable rows apart from those of the open
  transaction. Every place where the source can raise or the worker can die asks an arbitrary
  function of faults what happens there.
- **Requests.** KYC, ISAR and coupons are classes whose methods assign fields as the services do; `Serve`
  adds the commit or rollback of `get_db`. Each method is tied to a function `Handle` on values, and the
  laws are about runs of it. `KycEvidence`, `WalletLaws`, `TaskRows`, `ScreeningRows` and the last sections of the other
  modules say what each operation does in terms of its inputs alone. Three fields of the KYC record keep history that is in no table: every status
  write, every announced (old, new) pair, and the stages entered by PATCH.
- **Induction.** Every lemma switches automatic induction off and calls itself where it needs to: Dafny 4.11's automatic
  hypothesis for a lemma over a sequence of datatype values may assume a function's definition for values of other types.
- **Numbers.** Money and similarities are exact reals; stored results are rounded half to even, in cents or tenths.

## What the code does where a reader may expect otherwise

- `score_match_levenshtein` gives 100 exactly when 2000 times the edit distance does not exceed the longer
  length, so it tells all normal forms below 2000 characters apart, but not all of 2000.
- Raising the screening threshold cuts a prefix exactly when tied entries keep the order of their first qualifying
  names; that holds for all watchlists with distinct entry ids and can fail when an entry is listed twice.
- Two overlapping cache refreshes may leave the older of two database states cached, exactly when one overtakes
  the other across a table write.
- A severity is read from the first match only: a politically exposed person ahead of a sanctioned match in
  the same score band hides it.
- The batch task is enqueued before the request that created its job commits; a delivery that comes first finds no job,
  and the job stays queued until another. If the lookup of a message redelivered after completion raises, and the
  handler's update and commit go through, a complete, billed job is marked failed; in no other case do billing and
  completion disagree.
- Monitoring bills active customers without a name, whom it does not screen.
- PATCH can take a high-risk customer from `edd_required` to `approved` with no EDD case and no senior decision.
- `unfreeze_customer` always rejects, though its comment (backend/app/modules/identity/router.py:728) speaks of
  going back to approved.
- The overage count is stale exactly when usage is within the quota and once was above it, which takes a negative
  quantity.
- A coupon can take off more than the base price exactly when the base price rounds up to the cent.
- A coupon's redeemed sum stops matching the discounts on its subscriptions exactly when an accepted subscription
  meets a discount below zero, which takes a negative base price.
- A window admits more than its limit exactly when more arrive than a positive limit and its counter restarts, which takes a
  request that reaches Redis more than 60 seconds after reading its clock, or out of time order.
- Waiting exactly Retry-After leads to a later window only when the clock stood on a whole second.
- A counterparty address with surrounding blanks in one layer and without in the other is counted twice.
- The batch and reporting sanctions lookups read a listing that is neither text nor a record as "", so they may find a
  blank address that the single lookups do not.
- For an address unknown to Blockscout, sanctioned counterparties of layer 1 leave the score at 50.

## Model

| member | source | states |
|---|---|---|
| EditDistance.ScriptCostsAtLeastDistance | backend/app/modules/screening/matching.py:84-85 | no sequence of keeps, replacements, insertions and deletions turning one name into the other costs less than their edit distance |
| EditDistance.CheapestScript | backend/app/modules/screening/matching.py:84-85 | some edit script costs exactly the distance; with the row above, the recursion is the Levenshtein distance |
| EditDistance.Symmetric | backend/app/modules/screening/matching.py:84-85 | the edit distance is symmetric |
| EditDistance.Bounds | backend/app/modules/screening/matching.py:84-85 | it is at most the longer and at least the difference of the lengths |
| EditDistance.ZeroIffEqual | backend/app/modules/screening/matching.py:84-85 | it is 0 exactly for equal names |
| Names.ApplyRomanization | backend/app/modules/screening/matching.py:49-56 | the token loop joins the canonical spelling of each lower-case word |
| Names.CanonicalIffVariant | backend/app/modules/screening/matching.py:15-46 | a word is rewritten to a name exactly when it is one of that name's variants; every other word stays |
| Text.SpacesAreThese | backend/app/modules/screening/matching.py:51 | words end at exactly the white space listed |
| Text.SplitTakesWord | backend/app/modules/screening/matching.py:49-63 | a word followed by white space comes off as one word, and leading white space is skipped |
| Text.StripDropsEnds | backend/app/workers/tasks/batch.py:75 | stripping takes the white space off both ends of a text and nothing else |
| Names.NormalizedIsNormal | backend/app/modules/screening/matching.py:59-64 | a normal form splits into, and is the single-spaced join of, the name's words, each lower case and in canonical spelling |
| Names.NormalizationIsIdempotent | backend/app/modules/screening/matching.py:15-64 | normalising twice is normalising once |
| Names.SameNormalFormIff | backend/app/modules/screening/matching.py:15-64 | two names share a normal form exactly when their words agree up to case, spacing and the romanization variants |
| Scoring.CompositeDominatesLevenshtein | backend/app/modules/screening/matching.py:67-116 | both scores lie in 0 to 100, the composite one is never below the Levenshtein one, and the latter is symmetric |
| Scoring.ScoreIsBestOfThree | backend/app/modules/screening/matching.py:72-106 | for non-empty normal forms the score is the greatest of token set ratio, Jaro-Winkler and edit similarity plus 8 for equal Soundex codes, else 10 for equal Metaphone codes, capped at 100 and rounded; otherwise it is 0 |
| Scoring.ScoreCoversSimilarities | backend/app/modules/screening/matching.py:77-106 | it is never below what token set ratio or Jaro-Winkler give by themselves |
| Scoring.ReorderedNameIsPerfect | backend/app/modules/screening/matching.py:77-106 | a name with its words in another order scores 100 when the token set ratio says so |
| Scoring.LevenshteinIsRoundedSimilarity | backend/app/modules/screening/matching.py:109-116 | the Levenshtein score is 100 times one minus distance over longer length, rounded |
| Rounding.RoundingIsNearestEvenIff | backend/app/modules/screening/matching.py:106 | rounding gives the nearest value, and the even one of two equally near |
| Scoring.ScoreIsCapped | backend/app/modules/screening/matching.py:103-106 | a composite score is never above 100, whatever the libraries return |
| Scoring.LevenshteinIsPerfectIff | backend/app/modules/screening/matching.py:109-116 | the Levenshtein score is 100 exactly when 2000 times the distance is at most the longer length |
| Scoring.LevenshteinIsPerfectIffEqual | backend/app/modules/screening/matching.py:109-116 | for normal forms under 2000 characters it is 100 exactly when they are equal and not empty |
| Scoring.OneEditInTwoThousandIsUnseen | backend/app/modules/screening/matching.py:115-116 | at 2000 letters two names one letter apart score 100 |
| Scoring.EqualNormalFormsArePerfect | backend/app/modules/screening/matching.py:72-106 | names with the same non-empty normal form score 100 |
| FindMatches.Collector.AddCandidate | backend/app/modules/screening/matching.py:135-147 | the closure's guard and three updates carry what is collected from the names scanned to one name more |
| FindMatches.CollectedAreRecords | backend/app/modules/screening/matching.py:131-147 | what is collected is exactly the running maxima of every entry, in the order scanned, and `seen_scores` their last |
| FindMatches.ScanRow | backend/app/modules/screening/matching.py:149-164 | a row's primary name and then its string aliases are offered in order, for every tuple shape |
| FindMatches.DedupeById | backend/app/modules/screening/matching.py:166-171 | the second pass keeps, per entry and in order of first appearance, the last row of an entry, its scores being strictly rising |
| FindMatches.LastRecordIsBest | backend/app/modules/screening/matching.py:135-171 | that last row is the entry's first best qualifying candidate |
| FindMatches.SortOrders | backend/app/modules/screening/matching.py:173 | the stable sort puts higher scores first and keeps ties in order of first qualifying name |
| FindMatches.DedupedIsScreening | backend/app/modules/screening/matching.py:166-173 | sorting what the second pass kept of the running maxima is the screening result |
| FindMatches.FindMatches | backend/app/modules/screening/matching.py:119-173 | reports exactly one row per entry with a positive score at or above the threshold, with its best score and the field and source of the first name that attains it, best first, ties by first qualifying name |
| ScreeningRows.CandidatesAre | backend/app/modules/screening/matching.py:149-164 | what is scored are exactly the primary names and string aliases of the rows, each with its own row's id and source |
| ScreeningRows.ReportedIsBestName | backend/app/modules/screening/matching.py:119-173 | each reported row is a name of the watchlist with its entry's id and source and its own score, which is positive and reaches the threshold, and no name of the entry scores higher |
| ScreeningRows.CountingNameIsReported | backend/app/modules/screening/matching.py:119-173 | every name whose score is positive and reaches the threshold has its entry reported, with at least that score and nothing lower ahead |
| ScreeningRows.AliasBeatsPrimary | backend/app/modules/screening/matching.py:160-164 | with distinct ids the matched field is an alias only when it beats the primary name |
| ScreeningLaws.ScreeningIsUnique | backend/app/modules/screening/matching.py:119-173 | that description admits at most one list, so it pins `find_matches` down |
| ScreeningLaws.ScreeningExists | backend/app/modules/screening/matching.py:119-173 | and at least one, for every list of scored names and every threshold |
| ScreeningLaws.OneRowPerEntry | backend/app/modules/screening/matching.py:166-173 | no entry is reported twice |
| ScreeningLaws.RaisingThresholdCutsPrefixIff | backend/app/modules/screening/matching.py:135-173 | raising the threshold returns exactly the prefix that reaches it, exactly when entries tied at a best score keep the order of their first qualifying names |
| ScreeningLaws.RaisingThresholdCutsPrefix | backend/app/modules/screening/matching.py:135-173 | so it does whenever each entry's names stand together |
| ScreeningLaws.ScreeningAtHigherThreshold | backend/app/modules/screening/matching.py:135-173 | and so for every watchlist with distinct entry ids, at all pairs of thresholds |
| ScreeningLaws.RepeatedEntryBreaksPrefix | backend/app/modules/screening/matching.py:135-173 | a list with an entry twice that fails the exact condition: two tied rows change places at every pair of thresholds that separates its scores |
| ScreeningLaws.BestMatchesAreRowwise | backend/app/modules/screening/matching.py:149-173 | with distinct ids the reported rows are those of screening each entry alone |
| ScreeningLaws.PermutingWatchlist | backend/app/modules/screening/matching.py:149-173 | permuting the watchlist permutes the result among equal scores only |
| ScreeningLaws.QualifyingIsReported | backend/app/modules/screening/matching.py:135-173 | the entry of every qualifying name is reported with at least that name's score and nothing lower ahead of it |
| ScreeningLaws.ExactNameIsReportedFirst | backend/app/modules/screening/matching.py:72-173 | an entry with a name or alias of the screened name's non-empty normal form is reported with score 100 for every threshold up to 100, with only scores of 100 ahead of it |
| WatchlistCache.Redis.Execute | backend/app/modules/screening/watchlist_cache.py:35-53 | the queued commands take effect in order with nothing in between |
| WatchlistCache.Redis.Refresh | backend/app/modules/screening/watchlist_cache.py:29-54 | after a refresh the list encodes exactly the selected entries in order, whatever it held, with the new version |
| WatchlistCache.Redis.Check | backend/app/modules/screening/service.py:43-68 | a check answers with the screening of the cached list, or of the table when it is empty; only a miss whose refresh succeeds changes the list |
| WatchlistCache.CacheRoundTrip | backend/app/modules/screening/watchlist_cache.py:38-60 | rows built from cached objects equal rows built from the table |
| ScreeningRows.EncodingLosesNothing | backend/app/modules/screening/watchlist_cache.py:38-50 | two entries are cached alike exactly when they differ at most in having no alias list or an empty one |
| ScreeningRows.AnswerIsOfEntries | backend/app/modules/screening/service.py:43-68 | an answer through the cache is that of the table path and gives ids, sources, fields and best scores of the entries' own names |
| ScreeningRows.CountingEntryIsReported | backend/app/modules/screening/service.py:43-68 | every entry with a name that counts is reported |
| WatchlistCache.StepKeepsInv | backend/app/modules/screening/watchlist_cache.py:29-60 | each read, pipeline, write, eviction, hit or miss keeps the list empty or the encoding of one database state |
| WatchlistCache.EveryRunIsSafe | backend/app/modules/screening/watchlist_cache.py:29-60 | over every interleaving the list is empty or encodes one state that existed, and every answer screened one such state, never a mix |
| WatchlistCache.AnswersScreenOnePastState | backend/app/modules/screening/service.py:43-68 | every answer equals, up to order among ties, `find_matches` on one past state |
| WatchlistCache.SelectOrderOnlyMovesTies | backend/app/modules/screening/service.py:52-68 | the order in which a select returns the rows moves only ties |
| WatchlistCache.HitAfterRefreshAgrees | backend/app/modules/screening/service.py:43-68 | a hit on a list just refreshed from the current table agrees with the database path up to order among ties |
| WatchlistCache.OverlappingRefreshesCanGoBack | backend/app/modules/screening/watchlist_cache.py:31-53 | a run in which a refresh that read before a write and writes last puts the older state back |
| CacheOrder.RefreshSetsState | backend/app/modules/screening/watchlist_cache.py:29-54 | what a refresh leaves cached is the database state its own read saw, whatever happened in between |
| CacheOrder.GoesBackIff | backend/app/modules/screening/watchlist_cache.py:29-54 | over every run some step replaces the cached state by an older one exactly when a refresh that read after another's read and a later table write writes the cache before that other does |
| CacheOrder.SeparateRefreshesMoveForward | backend/app/modules/screening/watchlist_cache.py:29-54 | refreshes none of which reads between another's read and write only ever move the cached state forward |
| CacheOrder.CachedIsCurrentIff | backend/app/modules/screening/watchlist_cache.py:29-60 | while a refresh is the last to have written the cache, the cached state is the current one exactly when the table has not been written since that refresh read it |
| CacheOrder.HitIsCurrentIff | backend/app/modules/screening/service.py:43-49 | a hit's answer is then drawn from the current database state exactly in that case |
| Screenings.AlertsForAppend | backend/app/modules/alerts/service.py:149-183 | adding a result adds its alert, if it has matches, and leaves the others |
| Screenings.AlertIdsRise | backend/app/modules/alerts/service.py:158-166 | alerts stand in the order of their results and no result has two |
| Screenings.AlertedIffMatched | backend/app/modules/alerts/service.py:149-183 | a result has an alert exactly when it has matches |
| Screenings.AlertIsOfResult | backend/app/modules/alerts/service.py:167-183 | an alert carries its result's id and tenant and the severity of that result's matches |
| Screenings.HasAlertIff | backend/app/modules/alerts/service.py:158-166 | only an alert of the same tenant and result stands in the way of another |
| Screenings.FindIsDetermined | backend/app/workers/tasks/batch.py:81-86 | any right answer of `find_matches` on the loaded watchlist is the one the tasks are modelled with |
| Screenings.ScreenerExists | backend/app/workers/tasks/batch.py:56-86 | for every watchlist, threshold and severity rule there is such a screener |
| Screenings.SeverityCoversAllIff | backend/app/modules/alerts/service.py:117-146 | the severity covers every match exactly when the first is a sanctions match or no sanctions match shares its band |
| Screenings.SeverityIff | backend/app/modules/alerts/service.py:117-146 | each severity exactly for its list and score band of the first match, sanctions lists being un, ofac, eu and nacta |
| Screenings.SanctionsMatchIsHidden | backend/app/modules/alerts/service.py:117-146 | a politically exposed person at 95 ahead of a listed one at 94: high, where the second alone is critical |
| BatchScreening.Job.CreateAlert | backend/app/modules/alerts/service.py:149-187 | adds one alert for a result with matches unless it has one, and nothing otherwise |
| BatchScreening.LoopStep | backend/app/workers/tasks/batch.py:74-119 | screening the next named row extends results and alerts to those of one subject more |
| BatchScreening.LoopIsCommittable | backend/app/workers/tasks/batch.py:122-159 | the loop's transaction is consistent to commit at every multiple of a hundred and at the end |
| BatchScreening.Job.ScreenAndSave | backend/app/workers/tasks/batch.py:75-128 | one turn of the loop adds one result, its alert and its output row, and leaves the durable rows consistent wherever it stops |
| BatchScreening.Job.ScreenRows | backend/app/workers/tasks/batch.py:71-128 | the loop ends with one result and one output row for every subject, in order; wherever it stops all but the last up to 99 rows screened are durable |
| BatchScreening.LastSavedIs | backend/app/workers/tasks/batch.py:122-128 | what is durable is the last multiple of a hundred |
| BatchScreening.Job.Finish | backend/app/workers/tasks/batch.py:130-160 | completion, count, file key and usage event become durable together or not at all |
| BatchScreening.Job.Attempt | backend/app/workers/tasks/batch.py:43-160 | however it stops, the durable job is consistent, and complete exactly when it returned; it only stops where a step met a fault |
| BatchScreening.Job.MarkFailed | backend/app/workers/tasks/batch.py:162-182 | rolls back and, unless that raises too, changes only the status |
| BatchScreening.Job.Process | backend/app/workers/tasks/batch.py:43-182 | a queued job whose run raises is failed unless the handler's update or commit meets a fault too |
| BatchScreening.Job.Deliver | backend/app/workers/tasks/batch.py:31-184 | under any faults durable results equal `processed_count` and alerts the results with matches; redelivering a job that is not queued changes nothing unless its lookup raises |
| BatchScreening.Job.Meet | backend/app/workers/tasks/batch.py:31-184 | one event in a job's life: its creation's commit queues it, a delivery without faults completes a queued job and leaves any other alone, and a finished job changes only when a raising lookup's handler marks it failed |
| BatchScreening.RunHasOutcome | backend/app/workers/tasks/batch.py:31-184 | in every list of such steps a usage event is durable exactly when some delivery completed the job; a billed job is not complete exactly when a later delivery's lookup raised and its handler's update and commit went through; without faults the job ends absent, queued or complete as the commit and a delivery after it occurred |
| BatchScreening.RunJob | backend/app/modules/screening/service.py:248-263 | every run of a job, its creation committed before, between or after deliveries or never, and under any faults, leaves consistent rows and this outcome; the quantity billed is the number of named rows; without faults the job completes exactly when a delivery follows the commit |
| BatchScreening.FinishedJobIsMarkedFailed | backend/app/workers/tasks/batch.py:37-44 | a complete job, billed for its rows, that a raising lookup leaves failed |
| BatchScreening.DurableResultsAreScreenings | backend/app/workers/tasks/batch.py:55-104 | every durable result is the screening of its own row's name against the watchlist the worker loaded |
| TaskRows.SubjectsAreOfRows | backend/app/workers/tasks/batch.py:74-79 | the subjects are, in order, the rows whose stripped name is not empty, with the row's own name, birth date and id, empty cells dropped |
| TaskRows.DurableResultsAreOfRows | backend/app/workers/tasks/batch.py:74-128 | the durable results are those of the first such rows, each with its own row's columns and the matches of its own name; all of them when finished, a multiple of a hundred before |
| TaskRows.UploadedLinesAreOfRows | backend/app/workers/tasks/batch.py:109-142 | a finished job has uploaded one line for each such row, in order, with its own columns, result and first match |
| OngoingMonitoring.Monitor.ScreenTenant | backend/app/workers/tasks/ongoing_monitoring.py:65-118 | a tenant's results, alerts and usage event become durable as a whole or not at all |
| OngoingMonitoring.Monitor.Run | backend/app/workers/tasks/ongoing_monitoring.py:37-129 | under any faults the durable rows are those of some number of whole tenants, all of them when it returns, and without faults it returns |
| OngoingMonitoring.TenantKeepsSound | backend/app/workers/tasks/ongoing_monitoring.py:65-118 | every alert refers to a result that exists |
| OngoingMonitoring.CustomersScreened | backend/app/workers/tasks/ongoing_monitoring.py:74-108 | each customer gets at most one result, and all do exactly when all have names |
| OngoingMonitoring.BilledIsScreenedIff | backend/app/workers/tasks/ongoing_monitoring.py:74-118 | tenants are billed at least for what was screened, and for just that exactly when no active customer lacks a name |
| OngoingMonitoring.NamelessCustomerIsBilled | backend/app/workers/tasks/ongoing_monitoring.py:74-118 | one monitored customer without a name: one billed, none screened |
| OngoingMonitoring.DurableResultsAreScreenings | backend/app/workers/tasks/ongoing_monitoring.py:48-103 | every result a run adds is the screening of its customer's name against the watchlist loaded for the run |
| TaskRows.MonitoredTenantsAre | backend/app/workers/tasks/ongoing_monitoring.py:40-42 | a run goes, in order, through the tenants that are not terminated and have monitoring enabled |
| TaskRows.TenantResultsAre | backend/app/workers/tasks/ongoing_monitoring.py:66-103 | each customer with a name who is approved or in EDD gets one result, in order, of the own name, birth date and CNIC |
| TaskRows.TenantUsageIs | backend/app/workers/tasks/ongoing_monitoring.py:110-118 | one usage event bills all customers who are approved or in EDD, if there is any |
| TaskRows.CustomerAlertsAre | backend/app/workers/tasks/ongoing_monitoring.py:105-106 | the new alerts are exactly those of the new results with matches, with their severity |
| KycWorkflow.LegalWriteRaisesRank | backend/app/modules/identity/workflows.py:6-24 | a table transition, a freeze or the rejection that ends one never lowers the rank and never leaves rejected and frozen |
| KycWorkflow.TransitionIff | backend/app/modules/identity/workflows.py:6-24 | the allowed transitions are, from every open status, to itself, to rejected, to the next stage, and from risk_scored to approved |
| KycWorkflow.RankNeverFalls | backend/app/modules/identity/workflows.py:6-24 | nor does any list of such writes, between any two points |
| KycWorkflow.AtMostEightChanges | backend/app/modules/identity/workflows.py:6-24 | at most eight writes change the status up to the one entering rejected or frozen, at most seven without it |
| KycWorkflow.StagesAreVisited | backend/app/modules/identity/workflows.py:6-24 | a status past an onboarding stage was reached through that stage |
| KycLifecycle.LatestFreezeIsLatest | backend/app/modules/identity/router.py:665-675 | the freeze record picked is the last of the wanted kind, or there is none |
| KycLifecycle.StepKeepsInv | backend/app/modules/identity/service.py:137-446 | every request of every service keeps the trail of writes, announcements, EDD case and freeze records consistent |
| KycLifecycle.EveryRunKeepsInv | backend/app/database.py:59-69 | so does every run of committed and refused requests |
| KycLaws.NeverFrozenIsReplayed | backend/app/modules/identity/service.py:160-169 | for a customer never frozen the announced pairs start at initiated, chain, are allowed by `can_transition`, include every write and end at the current status |
| KycLaws.StatusOnlyRises | backend/app/modules/identity/router.py:594-597 | over every run the rank never falls and rejected or frozen is never left |
| KycLaws.ApprovedVisitedEveryStage | backend/app/modules/identity/workflows.py:6-24 | an approved customer went through every stage up to risk scored |
| KycLaws.AtMostEightChangesInARun | backend/app/modules/identity/workflows.py:6-24 | in any run at most eight status changes happen up to and with the one that rejects or freezes |
| KycLaws.EddCaseNeverPrecedesEdd | backend/app/modules/identity/edd_service.py:27-58 | an EDD case exists only from edd_in_progress on, so starting EDD in edd_required never finds one |
| KycLaws.EddDecisionIsFinal | backend/app/modules/identity/edd_service.py:89-137 | a decided case never changes, was decided by a senior role, and shows in the status |
| KycLaws.FreezeRecordsExplainStatus | backend/app/modules/identity/router.py:594-730 | a frozen customer has an open freeze record, and any record means frozen or rejected |
| KycLaws.SeniorDecisionIff | backend/app/modules/identity/edd_service.py:100-142 | a customer in EDD has an undecided case, and an approved one a senior approval, exactly when that status was not entered by PATCH |
| KycLaws.PatchSkipsEdd | backend/app/modules/identity/service.py:160-169 | a run of PATCH requests approves a high-risk customer with no EDD case |
| KycLaws.UnfreezeRestoresIff | backend/app/modules/identity/router.py:594-730 | whatever happens between a freeze and an unfreeze, the customer is back in the status before the freeze exactly when that was rejected |
| KycLaws.UnfrozenIsNotApproved | backend/app/modules/identity/router.py:724-730 | an approved customer, frozen and unfrozen, ends rejected |
| KycEvidence.EveryMoveIsJustified | backend/app/modules/identity/service.py:137-446 | every status write of every run was made by a request that was a reason for that very edge when it came: table and PATCH, upload, OCR, positive NADRA answer or accepted pending callback, matching selfie and ID document, scored tier, EDD step of a senior role, freeze or unfreeze |
| KycEvidence.VerifyMovesIff | backend/app/modules/identity/service.py:211-360 | with a CNIC a customer moves on from documents_uploaded exactly on a positive NADRA answer, from nowhere else, and Shufti runs leave their references pending |
| KycEvidence.CallbackMovesIff | backend/app/modules/webhooks/shufti_router.py:30-92 | a callback is heard once, for a pending reference, and moves on from documents_uploaded exactly when accepted |
| KycEvidence.UploadMovesIff | backend/app/modules/identity/service.py:467-646 | where an upload leaves the status, by document type, OCR, earlier documents and face match; when it is refused |
| KycEvidence.ScoreMovesIff | backend/app/modules/identity/service.py:391-420 | the tier is stored; risk_scored is reached from liveness_checked, and left exactly for rejected when prohibited and edd_required when high |
| KycEvidence.PipelineMovesIff | backend/app/modules/identity/orchestrator.py:39-80 | the pipeline asks providers exactly with a CNIC, without an earlier result and before liveness, and scores exactly at liveness_checked |
| KycEvidence.StartEddIff | backend/app/modules/identity/edd_service.py:20-58 | EDD starts exactly from edd_required without a case, with an empty pending one |
| KycEvidence.SubmitFundsIff | backend/app/modules/identity/edd_service.py:76-98 | funds and their verification are stored exactly while the case is pending |
| KycEvidence.DecideEddIff | backend/app/modules/identity/edd_service.py:100-186 | accepted exactly from MLRO or platform admin on a pending case in edd_in_progress; records who decided, keeps the funds, sets the status it says |
| KycEvidence.FreezeIff | backend/app/modules/identity/router.py:586-614 | accepted exactly from MLRO, compliance officer or platform admin; one more open record, no announcement |
| KycEvidence.ReportFreezeIff | backend/app/modules/identity/router.py:664-682 | the last open record becomes reported; refused exactly without one |
| KycEvidence.UnfreezeIff | backend/app/modules/identity/router.py:693-730 | accepted exactly from MLRO or platform admin with an open or reported record; the last one is closed and the customer rejected |
| KycEvidence.PatchIff | backend/app/modules/identity/service.py:149-175 | refused exactly for a status that is neither the present one nor allowed next; sets tier, status and CNIC as given |
| KycEvidence.RequestsKeepTheRest | backend/app/modules/identity/service.py:137-646 | tier, CNIC, documents, provider results, EDD case and freeze records each change only by their own requests |
| KycEvidence.DocumentsWereUploaded | backend/app/modules/identity/service.py:484-504 | a customer has a document exactly when an accepted upload brought it |
| KycEvidence.NewCustomerIs | backend/app/modules/identity/service.py:48-75 | a new customer is initiated, of medium risk, with nothing else |
| KycServices.Session.UpdateCustomer | backend/app/modules/identity/service.py:137-175 | PATCH changes tier, CNIC, an empty one included, and status as asked, or is refused when the table does not allow the status |
| KycServices.Session.UploadDocument | backend/app/modules/identity/service.py:467-646 | an upload stores the document and moves up to three edges, by first document, OCR and face match; EDD documents are refused outside edd_in_progress |
| KycServices.Session.CompareFaces | backend/app/modules/identity/service.py:551-643 | the two face-match branches together move identity_verified to liveness_checked exactly when a selfie meets an ID document and the faces match |
| KycServices.Session.RunProvider | backend/app/modules/identity/service.py:314-360 | a positive NADRA answer moves documents_uploaded to identity_verified; Shufti leaves a pending reference |
| KycServices.Session.ProcessCallback | backend/app/modules/webhooks/shufti_router.py:30-92 | each reference is taken once; an unknown one changes nothing; only an accepted event moves, and only from documents_uploaded |
| KycServices.Session.Score | backend/app/modules/identity/service.py:391-420 | scoring sets the tier, leaves liveness_checked for risk_scored, and from there rejects prohibited and sends high risk to EDD |
| KycServices.Session.RunKycPipeline | backend/app/modules/identity/orchestrator.py:39-80 | the pipeline verifies only with a CNIC and no NADRA result, and scores only at liveness_checked |
| KycServices.Session.OpenEdd | backend/app/modules/identity/edd_service.py:20-58 | EDD starts only from edd_required, with one pending case |
| KycServices.Session.SubmitSourceOfFunds | backend/app/modules/identity/edd_service.py:76-98 | funds change only an undecided case |
| KycServices.Session.Decide | backend/app/modules/identity/edd_service.py:100-186 | approval and rejection need a senior role, a pending case and edd_in_progress, and set case and status together |
| KycServices.Session.FreezeCustomer | backend/app/modules/identity/router.py:578-654 | a freeze sets the status from anywhere and adds an open record, without an announcement |
| KycServices.Session.ReportFreezeToFmu | backend/app/modules/identity/router.py:657-682 | the last open record, and no other, becomes reported |
| KycServices.Session.UnfreezeCustomer | backend/app/modules/identity/router.py:685-732 | the last active record is closed and the customer rejected |
| KycServices.Session.Serve | backend/app/database.py:59-69 | a request that raises leaves the committed customer as it was |
| KycServices.ServeAll | backend/app/database.py:59-69 | serving any requests commits the state the run describes, with its invariant |
| UsageMetering.Meter.RecordUsage | backend/app/modules/billing/service.py:241-268 | adds the truncated quantity and sets the overage only above a positive quota |
| UsageMetering.Meter.CheckQuota | backend/app/modules/billing/service.py:211-239 | sets alert and expiry once, at the first over-quota check, and answers from what it leaves |
| UsageMetering.OverageIsExactAboveQuota | backend/app/modules/billing/service.py:266-268 | after any run the total is the sum of truncated quantities and, above a positive quota, the overage its excess |
| UsageMetering.TotalsRise | backend/app/modules/billing/service.py:241-268 | for non-negative quantities the overage is always the excess over a positive quota, and 0 otherwise |
| UsageMetering.UsageDependsOnSum | backend/app/modules/billing/service.py:241-268 | usage and overage depend on the sum alone, however recorded and however checks interleave |
| UsageMetering.OverageIsExactIff | backend/app/modules/billing/service.py:266-268 | for any quantities and a positive quota the overage is the excess over the quota exactly when usage is above it or never was; it is 0 exactly when usage never was above |
| UsageMetering.NegativeQuantityLeavesOverage | backend/app/modules/billing/service.py:266-268 | a run, for every positive quota, whose negative quantity leaves a stale overage |
| UsageMetering.ExpiryNeverMoves | backend/app/modules/billing/service.py:223-229 | usage never falls and an expiry once set never moves |
| UsageMetering.ExpiryIsFirstCheckPlusGrace | backend/app/modules/billing/service.py:219-226 | there is an expiry exactly when some check was over quota, and it is the first such check's time plus the grace hours |
| UsageMetering.MessagesOnlyEscalate | backend/app/modules/billing/service.py:211-239 | under a rising clock the messages go from OK to grace active to expired and never back |
| UsageMetering.MessageIff | backend/app/modules/billing/service.py:200-239 | each answer exactly when: by the plan, by quota and usage recorded before, and by the time since the first check over quota plus the grace hours |
| UsageMetering.FindsOverIff | backend/app/modules/billing/service.py:219-226 | a check is over quota exactly when the service is included and a positive quota is used up by what was recorded before |
| UsageMetering.TruncatedIff | backend/app/modules/billing/service.py:266 | a quantity counts its whole part, towards zero |
| Invoicing.Dashboard | backend/app/modules/billing/service.py:288-310 | the estimate is the base price plus, for each service with a rule, its total at the unit price or, beyond a positive quota, the quota at that price and the rest at the overage price, rounded once |
| Invoicing.Bill | backend/app/modules/billing/service.py:349-368 | one service's lines and cost: within quota at one price, the excess at the other |
| Invoicing.LinesOfUsage | backend/app/modules/billing/service.py:349-367 | a billed service has two lines, quota at the unit price and the rest at the overage price, when a positive quota is exceeded and one, its total at the unit price, otherwise |
| Invoicing.CostsAreOwed | backend/app/modules/billing/service.py:299-302 | the costs summed up are these exact products |
| Invoicing.GenerateInvoice | backend/app/modules/billing/service.py:331-411 | base, usage and discount lines in order; every usage line is its quantity times its unit price, rounded; the subtotal is the base price plus the exact products; the total is never negative |
| Invoicing.DashboardIsInvoicePlusUnbilled | backend/app/modules/billing/service.py:288-368 | the estimate exceeds the subtotal by the cost of services without positive usage, which is 0 when none is negative |
| Invoicing.DashboardEstimatesSubtotal | backend/app/modules/billing/service.py:288-403 | with no negative usage the estimate equals the invoice subtotal |
| Invoicing.LineQuantitiesAddUp | backend/app/modules/billing/service.py:349-367 | the quantities on a service's lines add up to its billed usage |
| Invoicing.UsageAmountsError | backend/app/modules/billing/service.py:355-368 | the usage lines' amounts miss the exact cost by at most half a cent a line, and by nothing for whole-cent prices |
| Invoicing.DiscountIsPartOfBase | backend/app/modules/billing/coupon_service.py:94-100 | an accepted coupon's discount lies between 0 and the rounded base price |
| Invoicing.DiscountsFitIff | backend/app/modules/billing/coupon_service.py:94-100 | all coupons' discounts fit the base price exactly when it does not round up |
| Invoicing.DiscountIs | backend/app/modules/billing/coupon_service.py:94-100 | a percentage takes that share of the base price, a fixed coupon its amount up to the base price, each rounded to the cent |
| Invoicing.DiscountCanExceedBase | backend/app/modules/billing/coupon_service.py:94-100 | on a base price of 1.5 cents the full discount is 2 cents |
| Invoicing.DiscountLeavesSubtotal | backend/app/modules/billing/service.py:370-378 | on an unchanged whole-cent base price and non-negative prices the discount is at most the subtotal |
| Invoicing.LinesAddUpToTotal | backend/app/modules/billing/service.py:331-411 | then the clamp never acts and the lines add up to the total within half a cent a usage line plus half a cent, exactly for whole-cent prices |
| Subscriptions.SubscribingKeepsOneActive | backend/app/modules/billing/service.py:117-157 | a new subscription leaves its tenant exactly it as active, and the other tenants theirs |
| Subscriptions.RedeemingSubscriptionKeepsInv | backend/app/modules/billing/service.py:139-162 | a discounted subscription is booked on its coupon and on no other |
| Subscriptions.FreeSubscriptionKeepsInv | backend/app/modules/billing/service.py:139-164 | one without a discount leaves the coupons' books as they were |
| Subscriptions.DeleteKeepsInv | backend/app/modules/billing/coupon_service.py:175-178 | deleting a coupon, with its redemptions, leaves the other coupons booked |
| Subscriptions.EveryRunKeepsInv | backend/app/modules/billing/coupon_service.py:180-198 | in every committed state a tenant has at most one active subscription, a coupon's `used_count` equals its redemption rows, the redeemed sum the positive discounts its subscriptions carry, and no row refers to a deleted coupon |
| Subscriptions.StepKeepsRefers | backend/app/models/billing.py:94-150 | every request keeps redemptions and subscriptions referring to coupons that exist |
| Subscriptions.ActiveIsNeverLost | backend/app/modules/billing/service.py:111-164 | no request, failed or not, leaves a subscribed tenant without an active subscription |
| Subscriptions.RedemptionRespectsMaximum | backend/app/modules/billing/coupon_service.py:80-81 | a redemption never takes a coupon past the maximum then in force; only an update can put the count above it |
| Subscriptions.MaximaHoldIff | backend/app/modules/billing/coupon_service.py:80-198 | every committed state of a run has each coupon's uses within its maximum exactly when no creation or update sets a maximum below the uses the coupon then has |
| Subscriptions.CarriedIsAllIff | backend/app/modules/billing/service.py:159-162 | positive discounts sum to all discounts of a coupon exactly when none is negative |
| Subscriptions.RedeemedEqualsDiscountsIff | backend/app/modules/billing/service.py:139-162 | in a consistent store a coupon's redeemed sum equals its subscriptions' discounts exactly when none of them is negative |
| Subscriptions.RedeemedBalancesIff | backend/app/modules/billing/service.py:111-164 | over every run, the redeemed discounts of every coupon sum to those of its subscriptions in every committed state exactly when no accepted subscription met a coupon discount below zero |
| Subscriptions.NonNegativePricesBalance | backend/app/modules/billing/coupon_service.py:94-100 | so they do, for all coupons in all states, in every run that sets no negative base price |
| Subscriptions.NegativePriceUnbalances | backend/app/modules/billing/service.py:159-162 | half off a base price of -10: 0 redeemed against -5.00 carried |
| Subscriptions.CreatedCouponIsFound | backend/app/modules/billing/coupon_service.py:54-145 | a created coupon is what its code finds, unused; every other code finds what it did; a second coupon with the code is refused |
| Subscriptions.CreatedCouponServes | backend/app/modules/billing/coupon_service.py:63-145 | a created coupon serves a subscription exactly on a priced plan it lists, within its dates and with a use left, and gives its rule's discount |
| Subscriptions.CouponServesIff | backend/app/modules/billing/service.py:139-162 | a code is accepted exactly on a priced plan with an active coupon of it within dates, uses and plans; the subscription carries coupon and discount, and a positive discount is counted and recorded once |
| Subscriptions.UnknownCodeIsRefused | backend/app/modules/billing/coupon_service.py:71-73 | no active coupon of the code, no subscription |
| Subscriptions.PlainSubscriptionIs | backend/app/modules/billing/service.py:122-156 | without a code a subscription is accepted exactly on a plan that exists and gets no discount |
| Subscriptions.UpdateSetsGiven | backend/app/modules/billing/coupon_service.py:147-173 | an update sets what it gives and keeps the rest of the coupon and all others; refused exactly for an unknown coupon |
| Subscriptions.PricesAreSet | backend/app/modules/billing/coupon_service.py:88-94 | prices change by being set, one plan at a time |
| Subscriptions.EveryRedemptionHasItsSubscription | backend/app/modules/billing/coupon_service.py:180-198 | in every committed state each redemption row belongs to a subscription of its tenant with its coupon and discount, no two to the same |
| BillingServices.Session.Validate | backend/app/modules/billing/coupon_service.py:63-100 | finds an active coupon that is within dates, uses and plans, and its discount, or refuses |
| BillingServices.Session.RecordRedemption | backend/app/modules/billing/coupon_service.py:180-198 | one more use and one redemption row for the coupon |
| BillingServices.Session.CreateSubscription | backend/app/modules/billing/service.py:111-164 | the subscription, its discount and its redemption as described, or refused |
| BillingServices.Session.AddCoupon | backend/app/modules/billing/coupon_service.py:102-145 | the checks in order, no code, used code, value not positive, percent above 100, primary key in use, refuse exactly what is not a new coupon; otherwise one unused active coupon is added |
| BillingServices.Session.EditCoupon | backend/app/modules/billing/coupon_service.py:147-173 | changes only the given fields of one coupon |
| BillingServices.Session.RemoveCoupon | backend/app/modules/billing/coupon_service.py:175-178 | removes the coupon and its redemptions and clears it on subscriptions |
| BillingServices.ServeAll | backend/app/database.py:59-69 | serving any requests commits the state the run describes, with its invariant |
| IsarFiling.Session.UpdateDraft | backend/app/modules/compliance/service.py:303-339 | changes the given sections of a draft, and of nothing else |
| IsarFiling.Session.SubmitForReview | backend/app/modules/compliance/service.py:381-403 | only a draft is submitted |
| IsarFiling.Session.ApproveIsar | backend/app/modules/compliance/service.py:405-432 | only MLRO or platform admin, only from review |
| IsarFiling.Session.RejectIsar | backend/app/modules/compliance/service.py:434-460 | the same, with reviewer and rationale |
| IsarFiling.Session.ReviseRejected | backend/app/modules/compliance/service.py:462-479 | a rejected ISAR becomes a draft without reviewer and rationale |
| IsarFiling.Session.FileAsStr | backend/app/modules/compliance/service.py:481-536 | files with a report when the parties exist; when the report cannot be built everything is as before |
| IsarFiling.Session.GenerateReport | backend/app/modules/compliance/service.py:580-628 | adds a report of an approved or filed ISAR and changes nothing else |
| IsarFiling.EveryRunKeepsInv | backend/app/modules/compliance/service.py:303-536 | in every reachable state approver, reviewer, rationale and filing time are set exactly as the status says, and every report carries what was last submitted |
| IsarFiling.StepKeepsReportInv | backend/app/modules/compliance/service.py:481-628 | every request keeps reports to decided ISARs, of the submitted content, and a filed ISAR with its parties has one of its filing time |
| IsarFiling.DecidedStaysDecided | backend/app/modules/compliance/service.py:405-536 | from approval on, the ISAR stays approved or filed, its content and approval stay and reports only grow |
| IsarFiling.ReportedContentIsFinal | backend/app/modules/compliance/service.py:580-628 | every report stays, and stays equal in content to its ISAR, in every later state |
| IsarFiling.AuditFieldsNameActors | backend/app/modules/compliance/service.py:381-536 | approver, reviewer, rationale, submitter and filing time are those of requests that were made, the senior ones by MLRO or platform admin |
| IsarFiling.AcceptedIff | backend/app/modules/compliance/service.py:303-628 | when each request is accepted, by role, status and outcome of the report |
| IsarFiling.RequestIsRecorded | backend/app/modules/compliance/service.py:381-536 | an accepted request records who made it and when, and touches no other's record |
| IsarFiling.UpdateReplacesGiven | backend/app/modules/compliance/service.py:324-337 | an update replaces the sections it gives and keeps all else |
| IsarFiling.NewReportIs | backend/app/modules/compliance/service.py:505-628 | a filing with its parties and a generation each add one report of the current content, with filing time and schema |
| IsarFiling.ServeAll | backend/app/database.py:59-69 | serving any requests commits the state the run describes, with its invariants |
| RateLimiter.Redis.IncrementAndExpire | backend/app/core/rate_limit.py:78-84 | one more than a live counter, or 1, expiring 120 seconds later |
| RateLimiter.Redis.Dispatch | backend/app/core/rate_limit.py:71-107 | admits exactly counts up to the limit and reports what remains and when the window ends |
| RateLimiter.CounterIsArrivalsIff | backend/app/core/rate_limit.py:78-84 | for any requests, however late and in any order, a window's counter equals its arrivals exactly when no increment found it expired; otherwise it is smaller |
| RateLimiter.CountIsArrivals | backend/app/core/rate_limit.py:78-84 | with each increment within a minute of its clock reading, a window's counter equals its arrivals and outlives them all |
| RateLimiter.AdmitsExactlyIff | backend/app/core/rate_limit.py:71-101 | for any requests a bucket and window admits at least the lesser of limit and arrivals, and exactly that if and only if the limit is 0, no more arrive than the limit, or its counter never restarts |
| RateLimiter.TimelyNeverRestarts | backend/app/core/rate_limit.py:78-84 | increments within a minute of their clock readings restart no counter |
| RateLimiter.AdmitsExactly | backend/app/core/rate_limit.py:71-101 | so each bucket and window then admits exactly the lesser of limit and arrivals |
| RateLimiter.AtMostTwiceWithoutRestart | backend/app/core/rate_limit.py:71-101 | any 60 seconds of clock readings see at most twice the limit admitted when neither of their two windows' counters restarts |
| RateLimiter.AtMostTwiceTheLimit | backend/app/core/rate_limit.py:71-101 | so they do when each increment runs within a minute of its clock reading |
| RateLimiter.LateIncrementRestartsCount | backend/app/core/rate_limit.py:81-84 | for every bound on the delay above 60 seconds, two requests of one window within it restart the counter, and a limit of one admits both |
| RateLimiter.RetryAfterLeadsToNextWindow | backend/app/core/rate_limit.py:72-96 | a second beyond Retry-After is always in a later window; Retry-After alone exactly on a whole second |
| SanctionsCheck.IsSanctionedAddress | backend/app/modules/analytics/sanctions_check.py:9-24 | the early-return loop finds the address exactly when some OFAC or EU entry lists it |
| SanctionsCheck.SanctionedEntries | backend/app/modules/analytics/sanctions_check.py:27-49 | each matching entry once, in order |
| SanctionsCheck.CheckAddress | backend/app/modules/analytics/sanctions_check.py:52-88 | one match for each entry that lists the address, in order, with its first such listing, "" for one without an address; the flag is set exactly when some entry does |
| SanctionsCheck.CheckCounterparties | backend/app/modules/analytics/sanctions_check.py:91-125 | returns exactly the looked-for addresses that are listed, and their number |
| SanctionsCheck.SanctionedIff | backend/app/modules/analytics/sanctions_check.py:9-24 | an address is sanctioned exactly when an OFAC or EU entry lists it as text or in a record, up to letter case and surrounding white space of the address asked for |
| SanctionsCheck.MatchingEntriesAre | backend/app/modules/analytics/sanctions_check.py:27-49 | the entries found are exactly those that list the address, once each and in order, by source and name |
| WalletLaws.FoundAmongIff | backend/app/modules/analytics/sanctions_check.py:91-125 | the batch lookup finds exactly the looked-for addresses that some OFAC or EU entry lists |
| WalletLaws.EmptyAddressIsNotFound | backend/app/modules/analytics/sanctions_check.py:98-101 | empty addresses are not looked for |
| SanctionsCheck.MatchingEntriesIff | backend/app/modules/analytics/sanctions_check.py:9-49 | an address has entries exactly when it is sanctioned |
| SanctionsCheck.LookupsAgree | backend/app/modules/analytics/sanctions_check.py:9-125 | all four lookups give one answer for every address that is not blank |
| SanctionsCheck.BlankLookupsDifferIff | backend/app/modules/analytics/sanctions_check.py:72-120 | for a blank address the lookups differ exactly when the single one finds no blank listing and some listing is neither text nor a record |
| SanctionsCheck.BlankAddressIsFound | backend/app/modules/analytics/sanctions_check.py:72-120 | an entry with one such listing, where they differ |
| WalletScoring.CalculateScore | backend/app/modules/analytics/service.py:43-154 | the step-by-step score, confidence, exposure and flags equal the tabulated ones |
| WalletLaws.ActivityScores | backend/app/modules/analytics/service.py:70-82 | a plain address scores 25, 20, 10, 5 or 15 by its five bands of activity |
| WalletLaws.ContractAdds | backend/app/modules/analytics/service.py:91-95 | an unverified contract scores 15 above and a verified one 5 below the same address without a contract |
| WalletLaws.BalanceAdds | backend/app/modules/analytics/service.py:84-89 | more than 100 ETH add 5, an emptied wallet with more than ten transactions 10, any other balance nothing |
| WalletLaws.TransfersAdd | backend/app/modules/analytics/service.py:97-99 | more than 200 token transfers add 5 |
| WalletLaws.CounterpartiesAdd | backend/app/modules/analytics/service.py:101-109 | one sanctioned counterparty adds 20 and more add 40; the clamp never acts; an unknown address stands at 50 |
| WalletLaws.CategoryIff | backend/app/modules/analytics/service.py:33-40 | each category exactly for its score band |
| WalletLaws.ConfidenceIff | backend/app/modules/analytics/service.py:111-117 | each confidence exactly for its number of transactions |
| WalletLaws.ExposureIs | backend/app/modules/analytics/service.py:119-132 | each share of a known address by score and sanctioned counterparties |
| WalletLaws.FlagsAre | backend/app/modules/analytics/service.py:134-147 | each flag exactly for its reason, in order; mixers from a score of 42 |
| WalletLaws.UnknownAddressIs | backend/app/modules/analytics/service.py:48-61 | what an address unknown to Blockscout gets |
| WalletScoring.CollectCounterparties | backend/app/modules/analytics/service.py:315-323 | collects exactly the lower-case senders and receivers other than the wallet |
| WalletLaws.CounterpartiesAre | backend/app/modules/analytics/service.py:315-323 | counterparties are exactly the senders and receivers in lower case, but for blanks and the wallet |
| WalletScoring.ScoreWallet | backend/app/modules/analytics/service.py:160-380 | a listed address is severe, any other is scored by layer 1 and, when its confidence is low, enriched by layer 2's new counterparties |
| WalletLaws.ListedWalletIsSevere | backend/app/modules/analytics/service.py:184-231 | an address an OFAC or EU entry lists scores 100, severe, all sanctioned, with its flag |
| WalletLaws.UnlistedWalletIsScored | backend/app/modules/analytics/service.py:185-205 | any other is scored from what is learnt about it |
| WalletLaws.LayerOneStands | backend/app/modules/analytics/service.py:329-338 | layer 1's scoring stands when it is confident, or layer 2 is not allowed or finds nothing |
| WalletLaws.LayerTwoAdds | backend/app/modules/analytics/service.py:338-372 | otherwise each new sanctioned counterparty adds 20 to the score and 15 to the share, up to 100, with a flag; ten transactions make the confidence medium |
| WalletScoring.ScoreIsPercentage | backend/app/modules/analytics/service.py:108-380 | the score lies in 0 to 100 through both layers |
| WalletScoring.ExposureAddsUpIff | backend/app/modules/analytics/service.py:119-132 | a known address's exposure adds up to 100 exactly with at most four sanctioned counterparties, or five and a score in the eighties |
| WalletScoring.CountsAddUpIff | backend/app/modules/analytics/service.py:315-366 | layer 1's count and layer 2's extra count add up to the count over all counterparties exactly when no listed address occurs in both but for surrounding blanks |
| WalletScoring.TrimmedCountsAddUp | backend/app/modules/analytics/service.py:315-366 | without surrounding blanks every sanctioned counterparty is counted once |
| WalletScoring.PaddedAddressCountsTwice | backend/app/modules/analytics/service.py:354-366 | a padded one is counted twice |
| WalletScoring.HigherCountsScoreHigher | backend/app/modules/analytics/service.py:101-109 | more sanctioned counterparties never lower score or category |
| WalletScoring.EnlargingListsNeverLowers | backend/app/modules/analytics/service.py:184-380 | enlarging the sanctions lists never lowers a wallet's score or category, through both layers and the direct match |
| WalletScoring.AddingEntriesEnlarges | backend/app/modules/analytics/sanctions_check.py:91-125 | adding entries enlarges the lists in this sense |
| WalletScoring.LayerOneCountRaisesIff | backend/app/modules/analytics/service.py:48-109 | sanctioned counterparties of layer 1 raise its score exactly for an address known to Blockscout |
| WalletScoring.UnknownAddressIgnoresLayerOne | backend/app/modules/analytics/service.py:48-61 | any other address scores 50, plus 20 for each sanctioned counterparty new in layer 2 where that layer is allowed |

## Left out

- Floating point: scores, prices and times are exact; Python's rounding is half to even on the exact value.
- `str.lower` is a mapping of code points; the context rule for a final sigma is not part of this model.
- Watchlist tuples of more than four fields are read like those of four; a tuple of three has no source.
- rapidfuzz's `token_set_ratio` and Jaro-Winkler, and jellyfish, beyond the ranges of their results.
- Primary keys of results are places in a table; other jobs' rows in the same tables are not part of this model.
- The tasks screen with a function value that stands for `find_matches` on the loaded watchlist (see `Screenings.FindIsDetermined`).
- A commit either happens or raises; a commit whose acknowledgement is lost, and a rollback that fails, are not part of this model.
- Celery's retries appear only as further deliveries; the CSV encoding of the result file is left out.
- The provider routing of `verify_nadra` is any list of provider runs; a provider cancelled by its timeout between its status write and its announcement is not part of this model.
- An announced pair stands for a call of `notify_kyc_status_change`; webhooks, e-mails and in-app notifications behind it are left out.
- Missing rows, tenant checks, malformed file uploads and invalid enumeration strings, which raise before anything is changed.
- Concurrent requests on one customer, ISAR, subscription, coupon or batch job; the code takes no lock.
- Coupon codes are given in their stripped upper-case form; a coupon's generated primary key is part of the request.
- Invoice numbers, tax, currencies, custom overrides and billing cycles: single-branch facts.
- Whether the subject and tenant of an ISAR exist is fixed over a run; deletion cascades are left out.
- An STR report is its content, filing time and schema version; the goAML rendering and its schema are left out.
- Redis being unavailable, where the limiter lets every request through, and how a request's bucket is derived.
- Layer 3 commercial scoring, which replaces the score, and the wallet score cache.
- Match dispositions, case transitions, monitoring rules, Form A6, retention and the frontend: single-branch facts or user interface.
