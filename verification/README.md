# A verified model of the day-profile archive

The archive publishes one page per calendar date. Publishing spans two stores that cannot commit
together (database rows and files), several independent publishers may want the same date, people and
standing rules decide what a page leads with, a derived index tells readers which dates have anything to
offer, and operators publish whole years in batches that may die at any point. This project models those
state machines and the standalone algorithms beside them, and proves what they keep.

How the project is laid out, bottom up:

- **The two stores.** `Basics`, `Disk` (names over inodes, so a hard link shares bytes and reopening a
  staging temp writes in place), `Rows` (manifests, evidence, the metadata derived from them),
  `Editorial` (append-only decisions), `ReviewMetadata` (how review status and quality floor are computed),
  `StorageNames` (what the names on disk say).
- **Two-phase publication.** `Publication` takes a publisher apart into single file and database steps;
  `Protocol` interleaves any number of them, each of which may crash or abort anywhere; `Archive` is the
  same code as classes that carry the steps out; `Reconcile`, `Convergence`, `RepairReports`, `Blockage` and
  `Recovery` are repair: what it leaves, what it sweeps and counts, when it raises, and that it makes a damaged
  archive safe again; `Runs` is what
  whole runs keep, with damage and withdrawals in them; `Progress` is what succeeds; `Faults` and `Laggard`
  give the interleavings and failures where a promise stops, as theorems.
- **The coverage index.** `Coverage`, `Rebuild`, `CoverageSteps`, `CoverageRuns`.
- **Decisions, headlines, identity and admission.** `AnnualContext`, `Featured`, `FeaturedRuns`,
  `Identity`, `MergeReview`, `Enrichment`, `Admission`, `Wikidata`, `Minting`, `SharedDates` (what a reader of a minted
  page sees), `Publishers`, `Retention`, `RetentionRuns`.
- **Event sections.** `EventGroups` stamps, `EventRendering` checks and groups, `EventSections` joins them, and
  `CarriedStamps` says what the stamps of statements no event owns any more do to a page.
- **Context pages.** `DailyEquivalent` and `Comparison` are two of its statements, `ContextPage` is the page and
  everything the canary checks, `ContextPublication` builds it and proves when it passes, `ContextFigures` what
  each of its numbers is a number of; `Prose` prints,
  searches and reads back numbers, `Wording` shows that a text does not say a word.
- **Batches.** `Batch`, `BatchRuns`.
- **Standalone algorithms.** `SourceLineage`, `Resolution`, `MonthArithmetic`, `CalendarDistance`,
  `DistanceWords` (what a described distance tells, and the day numbers behind it), `Sorting`.

Code that changes rows, files, maps or lists step by step is a class or a method, proved against a
specification function or relation; the run theorems are about those specifications.

## Assumptions

- A content hash determines the bytes it was computed from (`Hash` carries them). A payload is a structure,
  and a file may also hold bytes that are no profile.
- A date's advisory lock is mutual exclusion; a database transaction is one step; each file operation is
  one step. Writing and syncing a staged temp is one step, and so is rolling back and discarding:
  `SplitDiscardLosesDraft` and `LateDiscardSparesThePromoted` say what separating the latter loses.
- Repair runs with no live publisher between its phases; any number of crashed ones is fine. In the runs of
  `Runs`, damage to files is followed by a repair before anyone publishes; `RetentionRuns` has no such rule.
- Decisions recorded during a rebuild are about dates that are servable, or that nobody is served:
  `RulingAgreesIffServable` says what a decision does to the index otherwise.
- The rebuild theorem lets publications, decisions and repairs interleave with it, but not two
  publications of one date with each other: `LaggardIndexesItself` says exactly when that would matter, and
  `LaggardCanMisindex` is a run in which it does.
- Event retention keeps resolved claims attached to the events they rest on now, takes each publication's
  guards as read just before it starts (`StalePublicationKeepsOnlyItsOwn` and `StaleLossNeedsAnUnclaimedSlot` say
  what a stale read costs, and what the successor slot saves), and a published statement names the claim it rests on.
- Governance's identity of an event is its identity root, and a headline in force was chosen by a person or by the
  standing rule: what `MintedReadsAsChosen` needs to say whose a headline is.
- Quality grades are compared after the trimming and upper-casing the code does first; a reviewer's
  identity is stripped of ASCII spaces only.

## Where the code and its own account disagree

The model follows the code.

- `finalize` removes the temp in a `finally`, so a promotion that fails for any reason but "exists" or "not
  found" destroys the only copy of a committed payload (`FailedPromotionLosesUnpromotedDraft`), although a
  pending manifest is documented as always recoverable.
- `reconcile_publications` is documented as deterministic recovery for every interrupted state, but it raises,
  now and after any number of repairs, exactly when a ready draft, or a healthy published manifest without a
  profile, supersedes a manifest whose profile is missing and will not be restored
  (`MissingPredecessorProfileBlocksRepair`, `BlockedForGood`).
- Withdrawing a pending correction leaves its predecessor's one successor slot taken, because the constraint spans
  withdrawn rows; with nothing pending that is the only thing that refuses a golden or Wikidata publisher
  (`WithdrawnSuccessorSpendsTheSlot`, `RepairMaySpendTheSlot`).
- `refresh_coverage_metadata` re-indexes a date without asking whether its artifact can be read
  (`RulingAgreesIffServable`).
- A laggard completing after a newer version was published indexes itself (`LaggardIndexesItself`).
- The context publisher steps aside for a richer *profile*; it drops a date's events exactly when the manifest
  that has them lost its profile row (`ContextBuriesAnUnprofiledManifest`).
- A publisher that resumes a pending manifest completes it as it was drafted: the page then stays bound to the headline
  decision of the draft, whoever has chosen since (`MintedReadsAsChosen`, `AnotherBindingIsPublished`).
- The featured-event writer protects a person's choice only while it is on the ballot
  (`WriterSparesOnlyTheBallot`); evaluation is what protects it otherwise.
- A carried-over statement that can no longer be attributed keeps its old event stamp; the response boundary
  refuses the page exactly when those stamps do not fit the fresh ones (`CoherentIffLeftoversFit`), an old
  headline beside the new one among them (`StaleStampIsRefused`).
- The context sentences call every status but `estimated` a projection, where the canary demands projection
  words for `modeled` and for no other: a built page passes exactly when its statuses are ones its sentences can
  say (`BuiltPageIsClean`). The UN WPP adapter records only those two, the UCDP one only `final`.

## Model

| member | source | states |
|---|---|---|
| Protocol.NextKeepsSafe | services/api/app/services.py:1503-1723 | whichever publisher moves, crashes or aborts, the tables and files keep the protocol's invariant: consecutive versions, one pending manifest per date and it newest, its payload at its temp or final name, a published artifact intact or lost, a withdrawn one gone |
| Protocol.FinalArtifactsArePermanent | services/api/app/services.py:109-142 | no publisher's step overwrites or deletes a final artifact once linked |
| Protocol.PromotionNeverFails | services/api/app/services.py:109-130 | in the protocol's reachable states finalize never raises, whoever else promoted or swept the shared temp first |
| Progress.StepsNeverFail | services/api/app/services.py:1562-1723 | in the protocol's reachable states no step of an admitted publication fails, whoever else publishes, crashes or aborts |
| Progress.AdmittedPublicationIsServed | services/api/app/services.py:1503-1723 | in any safe archive, damaged and repaired before or not, an admitted publication left alone returns, and its page is the one served, readable and indexed |
| Progress.RepairUnblocks | services/api/app/services.py:1098-1216 | after a repair no pending manifest refuses a publisher |
| Runs.DraftsStayRecoverable | services/api/app/services.py:1562-1723 | at any point of any run with crashes between any two steps, and damage and repairs before, each committed draft's exact payload is at its temp or final name, and one repair completes it and withdraws nothing |
| Recovery.RepairCompletesEveryDraft | services/api/app/services.py:1118-1216 | repair of a safe archive publishes every pending manifest with its payload, abandons none, moves no final artifact, and reports as mismatches exactly the artifacts lost before |
| Recovery.RepairMakesSafe | services/api/app/services.py:1098-1287 | from sound tables and any files at all, one repair leaves an archive in which every theorem about publishers applies |
| Runs.PublishedIsServed | services/api/app/services.py:1691-1723 | in every reachable state a published manifest has exactly one day profile, and its final file has its hash or is gone; without damage before it is there |
| Runs.HistoryEndures | services/api/app/services.py:109-142 | over any run rows keep their date, version, content and, once decided, status; between damages final artifacts are never overwritten or deleted and nothing is withdrawn |
| Runs.VersionsAreConsecutive | services/api/app/services.py:1620-1640 | in every reachable state, withdrawals included, a date's versions are exactly 1 to its newest, each held by one row, at most the newest pending |
| Runs.NeverReused | services/api/app/services.py:1620-1640 | over any run, withdrawals included, a new version exceeds every version the date had in any earlier state |
| Runs.NewVersionIsUnused | services/api/app/services.py:1620-1640 | the version a publisher is given was never used, by a withdrawn manifest included |
| Runs.DraftIsNewest | services/api/app/services.py:1581-1618 | in every reachable state, withdrawals included, a date has at most one pending manifest, and it is its newest version |
| RetentionRuns.CareerIsDisciplined | services/api/app/services.py:1581-1640 | the same over runs of all three publishers where files are lost at any time: rows stay, versions are consecutive, at most the newest is pending |
| RetentionRuns.NeverReused | services/api/app/services.py:1620-1640 | and a version once used is never given out again, whatever became of its manifest |
| Archive.ProfileStore.StageVersioned | services/api/app/services.py:174-209 | staging never touches an existing final artifact, reuses one that verifies, and otherwise leaves exactly the payload at the deterministic temp |
| Archive.StagedProfileWrite.Finalize | services/api/app/services.py:109-130 | promotion links or accepts a verified destination, raises exactly when neither holds, and always removes the temp |
| Archive.StagedProfileWrite.Discard | services/api/app/services.py:132-142 | only what this write created is undone |
| Archive.ProfileStore.QuarantineArtifact | services/api/app/services.py:1340-1355 | an artifact moves to the first free quarantine name, so none retained earlier is destroyed |
| Archive.ArchiveSession.PublishDayProfile | services/api/app/services.py:1503-1723 | the whole method, alone on its date, ends in the state and outcome of running the protocol's steps to the end; `Minting.NewVersionIsAsRequested` says which version that returns and what is in it |
| Archive.ArchiveSession.ReconcilePublications | services/api/app/services.py:1098-1287 | repairing is the specified repair; report-only changes nothing and returns the specified assessment; `RepairReports` says what either sweeps and counts |
| Archive.ArchiveSession.EnsureDayProfile | services/api/app/services.py:1304-1337 | inserts the missing profile, or raises exactly when the predecessor has none |
| Convergence.RepairConverges | services/api/app/services.py:1098-1287 | from any crashed state and any file damage one repair leaves nothing pending and nothing unhealthy advertised, and counts what a report-only run counts |
| Convergence.SecondRepairIsIdle | services/api/app/services.py:1098-1287 | a second repair changes nothing but old staging temps |
| RepairReports.SweepIsExact | services/api/app/services.py:1269-1287 | a repair that ends removes every staging temp old enough, and leaves every other temp that no pending manifest owned as it was, bytes included |
| RepairReports.SweepIsCounted | services/api/app/services.py:1269-1287 | from sound rows the reported number of stale temps is that of the old temps the two passes had no use for |
| RepairReports.ReportCounts | services/api/app/services.py:1098-1287 | each count of a report-only run over manifests is the number of manifests it is a count of |
| RepairReports.ClearingCounts | services/api/app/services.py:1256-1287 | a report-only run counts exactly the artifacts no published or pending manifest names, and the old temps there are |
| RepairReports.RepairCounts | services/api/app/services.py:1098-1287 | from sound rows a repair reports the same numbers of the archive it found, and calls healthy the sound manifests and the completed ones |
| Convergence.RepairDestroysNothing | services/api/app/services.py:1218-1287 | without the age-based sweep, every byte some name reached is still reached by some name |
| Blockage.MissingPredecessorProfileBlocksRepair | services/api/app/services.py:1304-1337 | repair raises if and only if a ready draft, or a healthy unprofiled published manifest, supersedes a manifest without a profile (and, for the latter, without the means to get one first); and it leaves that as it was |
| Blockage.BlockedForGood | services/api/app/services.py:1098-1337 | after any number of repairs with any sweeps, the next one raises if and only if the first would have |
| Faults.FailedPromotionLosesUnpromotedDraft | services/api/app/services.py:109-130 | after a promotion that failed otherwise, the draft is recoverable if and only if it had already been promoted |
| Faults.SplitDiscardLosesDraft | services/api/app/services.py:1685-1689 | whenever new content is admitted between a rollback and its discard, its publisher's steps to the commit end in a draft whose only payload the discard deletes |
| Faults.LateDiscardSparesThePromoted | services/api/app/services.py:132-142 | a late discard leaves every draft recoverable if and only if each draft of that version has its final artifact |
| Faults.FreshPublisherCommits | services/api/app/services.py:1620-1689 | the four steps from the lock to the commit, as one state |
| Faults.WithdrawnSuccessorSpendsTheSlot | services/api/app/models.py:553-561 | with nothing pending, a publisher naming the newest published manifest is admitted if and only if no withdrawn manifest names it, and is refused otherwise |
| Faults.RepairMaySpendTheSlot | services/api/app/services.py:1098-1216 | told before a repair: the slot is free afterwards if and only if the repair withdraws, and withdrew, no successor of it |
| Faults.LaggardIndexesItself | services/api/app/services.py:1710-1723 | a late completion leaves its date's index row right if and only if no newer version was published |
| Laggard.LaggardCanMisindex | services/api/app/services.py:1691-1723 | for any date and two contents there is a run from an empty archive in which it does not |
| ReviewMetadata.HumanReviewedMeans | services/api/app/profile_metadata.py:148-197 | human_reviewed if and only if something is published, nothing under it is in open review, a person's current selection stands behind every statement in its own section, and a multi-event page is bound to a row, at the version it has, by which a person selected the identity root of one of its events; review_pending if and only if a task is open under it |
| ReviewMetadata.ReviewStatusOf | services/api/app/profile_metadata.py:148-197 | the loops over decisions and published roots compute that status |
| ReviewMetadata.LatestDecisions | services/api/app/profile_metadata.py:170-179 | keeping the first row per key, newest first, keeps each key's current decision |
| ReviewMetadata.QualityFloorOf | services/api/app/profile_metadata.py:265-294 | the loop computes the floor: not_assessed exactly when no evidence root is graded or some grade of one does not rank, else the weakest grade of any evidence root |
| Rows.QualityFloorIsWeakest | services/api/app/profile_metadata.py:265-331 | a letter is reported exactly when some evidence row's root has a grade and every grade of every evidence row's root ranks; it is a grade of such a root, and none of them ranks below it |
| Rows.EventsBehind | services/api/app/governance.py:916-966 | exactly the events some resolved root of the recorded section is provenance of |
| Rebuild.CoverageIndex.RebuildCoverageIndex | services/api/app/coverage.py:222-262 | ends with exactly the index recomputation gives, and reports indexed, unreadable and dropped dates truthfully |
| Rebuild.CoverageIndex.DropStaleEntries | services/api/app/coverage.py:281-338 | every unsettled date is looked at again before its row goes: none that is servable is dropped |
| Rebuild.RecomputedAgrees | services/api/app/coverage.py:222-262 | the index equals the recomputed one if and only if every date's row agrees with recomputation |
| CoverageRuns.RebuildSettlesTheIndex | services/api/app/coverage.py:222-338 | from any index at all, with publications, decisions and repairs between its steps, once a rebuild ends, and ever after, a date has a row iff it is servable, and it is the one derived from the newest published manifest with a profile |
| CoverageRuns.MovesStayOnCourse | services/api/app/coverage.py:222-338 | no step of anyone else disturbs a date the rebuild has settled |
| CoverageSteps.RepairKeeps | services/api/app/services.py:1098-1287 | a repair never takes a date that agreed with recomputation out of agreement |
| CoverageSteps.RulingAgreesIffServable | services/api/app/coverage.py:197-219 | a recorded decision leaves its date's row right if and only if the date is servable, or unserved with no row |
| CoverageSteps.AttemptKeeps | services/api/app/services.py:1503-1723 | a publication crashed after any number of steps keeps every agreeing date in agreement |
| Editorial.RecordCurrent | services/api/app/governance.py:334-395 | the recorded decision is current for its key, every other key's is unchanged, and history only grew |
| Editorial.HumanMeans | services/api/app/governance.py:605-618 | behind any blanks, a reviewer's identity is a person's if and only if it is not empty and does not begin as a standing rule's |
| Featured.SelectionLog.ValidatedCandidates | services/api/app/governance.py:992-1041 | accepts exactly ballots of distinct single-day events on the date, in first-seen order |
| Featured.DedupKeepsFirstSeen | services/api/app/governance.py:992-1041 | a ballot keeps the order in which its candidates were first listed |
| Featured.SelectionLog.RecordFeaturedEventSelection | services/api/app/governance.py:1044-1135 | refuses, leaves a person's on-ballot choice standing, or leaves the choice selected and every other candidate and earlier headline rejected |
| Featured.SelectionLog.ResolveFeaturedEvent | services/api/app/governance.py:1138-1172 | returns a root exactly when it is the one selected on the ballot |
| Featured.SelectionLog.EvaluateFeaturedEvent | services/api/app/governance.py:1438-1596 | a person's choice wins, or refuses if off the ballot; else the smallest score, first listed on ties, citing its current row |
| FeaturedRuns.AtMostOneHeadline | services/api/app/governance.py:969-1135 | in every reachable log at most one root of a date is selected |
| FeaturedRuns.PersonIsNeverOverruled | services/api/app/governance.py:1503-1532 | after a person selects a headline, the rule never writes another featured row on that date |
| FeaturedRuns.WriterSparesOnlyTheBallot | services/api/app/governance.py:1070-1093 | handed a rule directly, the writer leaves a person's choice if and only if it is on the ballot |
| FeaturedRuns.WinnerIgnoresOrder | services/api/app/governance.py:1534-1537 | with distinct scores, any order of the same candidates gives the same winner |
| FeaturedRuns.ReevaluationAppendsNothing | services/api/app/governance.py:1538-1556 | evaluating again appends nothing and names the same row |
| FeaturedRuns.AppendsIffHeadlineMoves | services/api/app/governance.py:1538-1596 | a row is appended if and only if the headline moves |
| FeaturedRuns.ResolveReturnsTheWinner | services/api/app/governance.py:1138-1172 | after an evaluation, resolution returns its winner |
| FeaturedRuns.CandidatesAreOfTheDay | services/api/app/governance.py:992-1041 | an evaluation names a winner exactly on a ballot of two or more different events, each recorded as that one day, with keys, that no person's choice is missing from |
| FeaturedRuns.BindingTellsWhoChose | services/api/app/profile_metadata.py:105-145 | a manifest bound to an evaluation reads as human-headlined if and only if a person chose |
| AnnualContext.ContextRule.EnsureAnnualContextSelections | services/api/app/un_wpp.py:1451-1498 | the loop leaves any decided root alone and selects the others at their place in their section |
| AnnualContext.TheRuleDisplacesNothing | services/api/app/un_wpp.py:1451-1498 | every key anyone ever decided keeps exactly its decision; an undecided one is selected by the rule only if the page publishes it |
| AnnualContext.EveryRootIsDecided | services/api/app/un_wpp.py:1451-1498 | afterwards every published root of the date is decided |
| AnnualContext.TheRuleIsIdempotent | services/api/app/un_wpp.py:1451-1498 | applying the rule twice is applying it once |
| AnnualContext.RootDeclinedForDate | services/api/app/un_wpp.py:1501-1523 | true exactly when some root's current decision is not a selection |
| AnnualContext.DeclinesStand | services/api/app/un_wpp.py:1501-1523 | the rule neither undoes a decline nor makes one |
| Identity.AdjudicationLog.RecordIdentityAdjudication | services/api/app/governance.py:806-893 | each refusal for its reason and in its order; otherwise the identical row is kept or one version appended |
| Identity.AcceptedExactly | services/api/app/governance.py:806-858 | an answer is accepted if and only if a person gives it about two different events of one same day, naming a survivor of the pair exactly for a merge or a supersession |
| Identity.AnswerGoverns | services/api/app/governance.py:789-893 | the answer is the pair's current one, in either order, and no other pair's changed |
| Identity.AnsweringTwiceRecordsOnce | services/api/app/governance.py:859-873 | the same answer again, in either argument order, writes nothing |
| Identity.AnsweringKeepsLedger | services/api/app/governance.py:645-725 | every row stays canonical, human, directionally consistent and consecutively versioned |
| Identity.HistoryRemembers | services/api/app/governance.py:896-913 | a permission a later answer withdraws stays in history |
| Identity.LastAnswerGoverns | services/api/app/governance.py:789-804 | in a ledger only this writer wrote, a pair's last row is its current one |
| MergeReview.AskingTwiceOpensOnce | services/api/app/wikidata.py:1559-1611 | asking again about the same collision opens nothing, retires nothing and names the same task |
| MergeReview.AskingNamesAWaitingTask | services/api/app/wikidata.py:1537-1611 | asking names a task of this claim that awaits an answer about exactly these events, opens one only when none did, retires this claim's waiting tasks before it, and touches no other |
| MergeReview.GuardFollowsTheAnswer | services/api/app/wikidata.py:1663-1719 | after an answer about one pair the guard is open iff it was `distinct_event` and the rest were already permitted |
| Wikidata.WikidataPublisher.CollisionAdjudication | services/api/app/wikidata.py:1663-1719 | bypasses exactly on a current human `distinct_event` against every other event, of which there is one; else surfaces a recorded answer if any |
| Wikidata.CollisionStopsExactly | services/api/app/wikidata.py:2311-2330 | the guard stops a candidate exactly where the index says a recorded event is published by a manifest that shares none of its roots, unless it is resolved and every other event there is ruled distinct from it |
| Wikidata.WikidataPublisher.EnsureMergeReviewTask | services/api/app/wikidata.py:1559-1611 | reuses the task about these events, or retires the stale ones and opens one |
| Wikidata.WikidataPublisher.PublishWikidataEvent | services/api/app/wikidata.py:2198-2632 | asks for a version if and only if no collision or earlier answer stops it, the candidate has its occurrence, every other event keeps something and a headline settles, and the predecessor reads back; then the archive is what publishing that request leaves; otherwise it is as it was, and a headline is called for exactly when another event has nothing left or several candidates settle on none; the request forces a version exactly when asked to or when the headline decision is not the predecessor's, and its section is stamped for the candidate's and the other events with the headline's leading; a person is asked exactly when a guard stops it, and is shown the current ruling against one of the other events or, when there is none, the task that asks about them |
| Wikidata.WikidataPublisher.ComposeShared | services/api/app/wikidata.py:2498-2590 | composes if and only if the predecessor reads back, something of every other event survives and a headline settles; the section is exactly the candidate's statements and all survivors in order, the bound headline's side first, each statement stamped with the event it traces to and the event of the decision's root leading |
| Wikidata.WikidataPublisher.SurvivorsOf | services/api/app/wikidata.py:2072-2157 | exactly the predecessor's foreign statements whose current decision selects them, all of them, in order |
| Wikidata.WikidataPublisher.ResolveMergeReview | services/api/app/wikidata.py:1767-1864 | succeeds if and only if a task asked about exactly this collision and no pair's answer is refused; then every pair's current row says this answer and names the task, no other pair's changed, and the task is closed; otherwise nothing changes |
| Wikidata.AskedMeans | services/api/app/wikidata.py:1809-1830 | a collision was asked about exactly when a task of this very claim has as its subject a manifest with these events and no others |
| Minting.NewVersionIsAsRequested | services/api/app/services.py:1564-1723 | a publication that returns adds a version exactly when nothing is pending and there is no newest version to reuse; the added row has the request's day, content, tier, evidence, headline binding and predecessor under a higher version, and any other version returned keeps what it had |
| SharedDates.BindingIsAsRequested | services/api/app/services.py:1600-1619 | the returned version carries the requested headline binding if and only if it is not a pending one drafted under another |
| SharedDates.MintedReadsAsChosen | services/api/app/wikidata.py:2514-2712 | a minted version of a shared date reads as headlined by a person if and only if a person had chosen the headline, except when it resumed a version drafted under another decision |
| SharedDates.ResumedKeepsItsBinding | services/api/app/services.py:1600-1619 | in a healthy archive a pending version of the same content is completed as drafted, binding included |
| SharedDates.AnotherBindingIsPublished | services/api/app/services.py:1600-1619 | for any content and two bindings there is a reachable archive in which the second request publishes under the first binding |
| SharedDates.MintedLeadsWithItsHeadline | services/api/app/wikidata.py:2592-2632 | in a minted page the boundary accepts fully stamped, if the headline's event speaks for a statement, the first group is that event's, under its key and title; on a shared date it is the event whose root the bound decision currently selects |
| SharedDates.SpokenForIsAccepted | services/api/app/governance.py:1345-1435 | when every statement has a titled event to itself, the boundary accepts the section if and only if the headline's event speaks for one |
| Minting.MintedSaysOnlyWhatIsSelected | services/api/app/wikidata.py:2072-2632 | in a minted version every recorded statement is the candidate's own, or its current decision is SELECTED |
| Minting.SelectedIsCarried | services/api/app/wikidata.py:2072-2157 | every still selected foreign statement of a shared date's predecessor is in the request |
| Minting.FailurePublishesNothing | services/api/app/services.py:1503-1723 | a publication that raises publishes nothing and leaves at most its own pending manifest |
| Publishers.DatePublishers.PublishGoldenProfile | services/api/app/usgs.py:1446-1500 | publishes if and only if the date has no event but its own |
| Publishers.DatePublishers.PublishContextProfile | services/api/app/un_wpp.py:1557-1582 | returns a richer profile untouched, else publishes |
| Publishers.ContextBuriesAnUnprofiledManifest | services/api/app/un_wpp.py:1536-1582 | where the context publisher goes ahead and returns, the date keeps its events if and only if it had no manifest, or its newest one has its profile row, or had no events |
| Admission.WikidataKeepsEvents | services/api/app/wikidata.py:2484-2632 | the events of an enriched section are exactly the predecessor's and the candidate |
| Admission.IndexRowCounts | services/api/app/coverage.py:83-140 | an index row is of the manifest it names, under its tier, with the number of evidence rows of each of the seven sections |
| Admission.TierMeans | services/api/app/services.py:1365-1429 | enriched exactly with recorded content; without it, partially enriched exactly when an editorial section says something date-specific |
| Admission.RecordedFlagIsTheTier | services/api/app/coverage.py:411-426 | the index's recorded-event flag and the publication tier, derived apart, agree on every manifest whose evidence fits its page |
| Retention.EffectStaysAdmitted | services/api/app/services.py:1564-1723 | a request that keeps the date's events leaves every later unwithdrawn manifest with every earlier published one's events |
| RetentionRuns.EventsAreRetained | services/api/app/wikidata.py:2484-2632 | over any run of context, golden and Wikidata publications, crashes, repairs, lost files and any index, the events behind a date's newest published manifest never shrink |
| RetentionRuns.CoPublicationWasAdjudicated | services/api/app/wikidata.py:2492-2512 | every two events behind a manifest were once ruled distinct by a person |
| RetentionRuns.WikidataAdmitsExactlyTheCandidate | services/api/app/wikidata.py:2592-2632 | a successful publication makes the events exactly the predecessor's and the candidate |
| RetentionRuns.StalePublicationKeepsOnlyItsOwn | services/api/app/un_wpp.py:1573-1577 | a publisher whose guard read an earlier state keeps the date's events if and only if they were among its own |
| RetentionRuns.StaleLossNeedsAnUnclaimedSlot | services/api/app/models.py:553-561 | a publisher that read an earlier state costs the date events only when no page since has named the one it read as its predecessor |
| Enrichment.ValidateStatementEvidence | services/api/app/services.py:390-437 | accepts exactly inputs with one root each that map every statement once and nothing else |
| Enrichment.SurvivingRecordedStatements | services/api/app/wikidata.py:2072-2157 | keeps, in order, exactly the resolved, still selected, foreign statements |
| Enrichment.SurvivorsAre | services/api/app/wikidata.py:2129-2157 | a statement survives if and only if its evidence row is resolved, selected and not excluded |
| Enrichment.CarriedForwardEvidence | services/api/app/wikidata.py:2044-2069 | carries exactly the other sections' rows |
| Enrichment.EnrichmentStaysMapped | services/api/app/wikidata.py:2590-2632 | if the predecessor's evidence paths are its statement paths, so are the successor's |
| EventGroups.EventsBySourceRelease | services/api/app/governance.py:1300-1342 | a release is owned exactly by the only listed event tracing to it |
| EventGroups.StampRecordedEventGroups | services/api/app/governance.py:1345-1435 | each attributed statement gets its event's key, title, order and position, the rest are untouched, the featured event is order 0 |
| EventRendering.HasCoherentEventGroups | apps/web/src/lib/day-profile.ts:358-467 | decides the contract: one event per key and, fully stamped, one leader, distinct orders, positions 0 to n-1 |
| EventRendering.GroupByEvent | apps/web/src/components/ProfileSections.tsx:56-99 | none exactly when grouping says nothing; else every group once, ordered, its statements by position |
| EventSections.GroupingPartitions | apps/web/src/components/ProfileSections.tsx:56-99 | the groups hold every statement exactly as often as published |
| EventSections.CoherentRendersInOrder | packages/contracts/src/index.ts:33-45 | any section the boundary accepts renders its one headline first, events by ascending order, statements at their positions |
| EventSections.StampedIsCoherent | services/api/app/governance.py:1345-1435 | fully attributed, a stamped section is accepted if and only if the featured event owns a statement |
| EventSections.StampedThenGrouped | apps/web/src/components/ProfileSections.tsx:56-99 | stamping then grouping partitions the section in strictly ascending order, each group in published order; the first group leads if and only if the featured event owns a statement |
| CarriedStamps.CoherentIffLeftoversFit | services/api/app/governance.py:1345-1435 | whatever was left unattributed, a stamped section is accepted if and only if the leftover stamps contradict neither each other nor the fresh ones and, fully stamped, share one headline and numbering with them and go on from their positions |
| CarriedStamps.StaleStampIsRefused | services/api/app/governance.py:1411-1420 | in any fully stamped section, an unattributed statement's old headline beside the new one makes it incoherent |
| Batch.BatchDesk.RunContextBatch | services/api/app/batch_publication.py:315-404 | every date ledgered truthfully, each count of the report the number of attempts that ended so, each date's entry what became of its last attempt, COMPLETED exactly when nothing planned is owed |
| Batch.RicherIsSkipped | services/api/app/batch_publication.py:349-360 | a date is skipped, unchanged, exactly when its newest published manifest has a profile and is more than context, and the entry names it |
| Batch.CompletedMeansNothingOwed | services/api/app/batch_publication.py:284-312 | nothing is owed if and only if every planned date is ledgered and none is failed |
| Batch.OwedFollowsThePlan | services/api/app/batch_publication.py:284-312 | what a run owes is the plan's dates in the plan's order, each exactly when it is not ledgered, or ledgered failed |
| Batch.RecoverableBatchRun | services/api/app/batch_publication.py:245-281 | only acceptable runs, the oldest owing one if any owes, else the newest acceptable |
| Batch.SettlingOneDropsTheCount | services/api/app/batch_publication.py:245-281 | settling one owing run lowers the number of owing runs by one |
| Batch.ResumedOwesNothing | services/api/app/batch_publication.py:284-404 | resuming a run over what it owes, nothing failing, leaves it owing nothing |
| Batch.Drain | services/api/app/batch_publication.py:245-281 | repeated resumption terminates, and without failures ends with nothing owed |
| BatchRuns.AtMostOneNewManifestPerDate | services/api/app/batch_publication.py:315-404 | any pattern of attempts, crashes and resumes, unforced, adds at most one manifest per date, and it is that date's page |
| BatchRuns.ForcedAttemptsMintAgain | services/api/app/services.py:1581-1640 | forced attempts mint another version each time |
| BatchRuns.LedgerStaysTruthful | services/api/app/batch_publication.py:315-404 | over attempts that end, attempts that crash before their entry, repairs and forced versions, every committed entry stays true of the archive |
| SourceLineage.LineageRootsAreExact | services/api/app/governance.py:417-441 | raises if and only if a cycle is reachable, else returns exactly the reachable parentless ancestors |
| SourceLineage.LineageWalk.VisitRelease | services/api/app/governance.py:428-441 | the recursive walk over its two mutable sets ends, and adds exactly the specified roots |
| Resolution.DeterministicResolution | services/api/app/usgs.py:607-661 | the ordered split of the candidates by whether they agree with the first authoritative one, or the first of all, the count of independent origins, and acceptance exactly without dissent |
| Resolution.AuthorityDecides | services/api/app/usgs.py:615-636 | the first authoritative candidate supports, and every other supports or dissents by agreement with it |
| Resolution.AgreementMeans | services/api/app/usgs.py:626-636 | numbers agree exactly when equal or within a declared tolerance, either way round; anything else only when equal |
| Resolution.BaselineIsSupported | services/api/app/usgs.py:623-636 | the split covers every candidate and the baseline supports itself |
| Resolution.SharedOriginCountsOnce | services/api/app/usgs.py:637-642 | releases with one sole origin count once |
| Resolution.DependentReleaseAddsNothing | services/api/app/usgs.py:637-642 | a release whose origins are counted already adds nothing |
| CalendarDistance.WholeMonthsStandAstride | apps/web/src/lib/coverage-distance.ts:85-95 | the clamped anchors of the count and of one more bracket the later date |
| CalendarDistance.NearestMonthsIsClosest | apps/web/src/lib/coverage-distance.ts:102-125 | over all month counts its anchor is closest, ties going down |
| CalendarDistance.NearestMonthsCounts | apps/web/src/lib/coverage-distance.ts:144-185 | 365 days or more are at least 12 months; over 31 and under 365 are 1 to 12 |
| CalendarDistance.DescriptionsMirror | apps/web/src/lib/coverage-distance.ts:144-185 | swapped arguments give the same words with the direction turned, and nothing only for the same date |
| DistanceWords.SameWordsTellTheSame | apps/web/src/lib/coverage-distance.ts:144-185 | two distances are described alike if and only if they agree in direction and band, and in days, in nearest months, or in years with their months up to two years |
| DistanceWords.BandIsTold | apps/web/src/lib/coverage-distance.ts:127-135 | the band is days up to 31 days either way, years from 365, months between |
| DistanceWords.DayNumber | apps/web/src/lib/coverage-distance.ts:66-75 | the day count behind every distance is the Gregorian one, in closed form |
| DistanceWords.CenturiesRepeat | apps/web/src/lib/coverage-distance.ts:66-75 | the calendar repeats every 400 years, after 20,871 whole weeks |
| DailyEquivalent.DailyIsTheNearest | services/api/app/un_wpp.py:936-939 | the daily number is the nearest whole one for its year's days, halves up |
| DailyEquivalent.CountReadsBack | services/api/app/golden_canary.py:754-765 | the comma-grouped count in the sentence is found first and reads back as itself |
| DailyEquivalent.ValidateDailyEquivalent | services/api/app/golden_canary.py:663-736 | no issue exactly when days, note, disclaimer, count and year are all right |
| DailyEquivalent.ProducedIsHonest | services/api/app/un_wpp.py:1276-1335 | every daily statement the publisher builds passes the daily-equivalent check |
| Comparison.PercentileRank | services/api/app/conflict_comparison.py:84-109 | the whole percent of strictly lower counts, refusing an empty cohort |
| Comparison.RankIsTheFloor | services/api/app/conflict_comparison.py:84-109 | true of the cohort and false one percent higher, at most 99 for a member, never lower for a larger count |
| Comparison.MedianIsRecorded | services/api/app/conflict_comparison.py:112-123 | a recorded value with fewer than half the years below and at most half above, so of two central values the lower |
| Comparison.ReferenceCohort | services/api/app/conflict_comparison.py:173-187 | each year's newest count that has a value, and no other year |
| Comparison.DeriveComparison | services/api/app/conflict_comparison.py:209-287 | a comparison exactly for a counted year of a long enough cohort: the year's latest when it was computed from this cohort, else one new row with the rank, the median, the period and the cohort |
| Comparison.ValidateComparison | services/api/app/golden_canary.py:354-437 | no issue exactly when root, model card, disclaimer, rank, cohort size and every forbidden word are right |
| Comparison.DerivedComparisonIsFair | services/api/app/golden_canary.py:354-437 | every derived comparison's sentence and details pass it |
| ContextPage.ValidatePayload | services/api/app/golden_canary.py:226-351 | no issue exactly when keys and states agree with the contract and the content, annual sections are filled, the tier matches, every status is worded as it is, daily equivalents are marked and true, and conflict counts and comparisons are honest |
| ContextPage.ValidateConflict | services/api/app/golden_canary.py:550-634 | no issue exactly when the count is period context of this year, disclaims this date, displays what it says, and says nothing of deaths |
| DatedCaveats.DisclaimsExactlyItsDate | services/api/app/golden_canary.py:480-520 | without the general caveat, a text whose first caveat names a date disclaims that date and no other |
| ContextPublication.ConflictIsHonest | services/api/app/ucdp.py:934-955 | the conflict sentence passes that on every date of its year, and its status check exactly when it is not modeled |
| ContextPublication.ContextIsHonest | services/api/app/un_wpp.py:1346-1414 | a context sentence passes its status check if and only if the status is estimated or modeled, and reads as nothing else |
| ContextPublication.TierIsContextOnly | services/api/app/services.py:1365-1429 | whatever annual content a page carries, its derived tier is context_only |
| ContextPublication.BuiltPageIsClean | services/api/app/un_wpp.py:1557-1692 | the canary finds nothing in a built context page, on any date, with or without conflict count and comparison, if and only if every status is one its sentence can say |
| ContextFigures.DailyStatementsTellTheirOwn | services/api/app/un_wpp.py:1272-1335 | the statement under "Average daily births" shows and records the nearest daily number of the year's births, the one under deaths that of its deaths, each with its own status |
| ContextFigures.ContextStatementsTellTheirOwn | services/api/app/un_wpp.py:1336-1414 | population, life expectancy and under-five mortality each stand under their own words in their own unit with their own status; the conflict statement says and records the year's count |
| ContextFigures.ComparisonTellsItsRanking | services/api/app/golden_canary.py:354-437 | a comparison is there exactly when the count is and one was derived, and says and records its rank, its cohort size and the year's count |
| ContextFigures.StatesTellWhatIsThere | services/api/app/un_wpp.py:1557-1692 | the recorded and annual sections are available, comparisons exactly when one is published, the rest not yet supported |
| StorageNames.NamesAreInjective | services/api/app/services.py:174-193 | final names, and temps, determine their date and version |
| StorageNames.TempsAreNotFinals | services/api/app/services.py:192-193 | no temp is named as a final artifact |

## Left out

- Fetching, workbook and CSV parsing, command lines, HTTP routes and page rendering: no deep state.
- SQL, sessions, triggers and PostGIS: tables are sequences and maps, queries are functions of them.
- `profile_type`: it is a function of the date.
- Evidence snapshots, licence and release-eligibility gates, claim review and the acceptance checks before publication.
- `LocalFilesystemPublishedProfileStore.write` and its `.profile-` temps: not on the versioned path.
- The violation of `day_profiles_single_successor` at completion: it is treated as a crash at that point.
- The order in which repair's queries list manifests, and the order of set-like listings elsewhere: repair goes by row id, and rebuild, guards and ballots hold for any order.
- The rebuild without a store, which trusts every published manifest to be servable.
- `_neighbour`, `coverage_for_date`, the archive summary and random date: reads over the index.
- Wikidata.WikidataPublisher.PublishWikidataEvent: does not model rendering of statements; of the evaluation's recorded fields, only a changed headline binding forces a new version.
- Publishers.DatePublishers.PublishGoldenProfile: takes the page's content as a parameter.
- EventRendering.GroupByEvent: takes the locale's comparison as a parameter required to be a total preorder.
- Batch.BatchDesk.RunContextBatch: error texts and timestamps are not ledgered.
- Resolution.DeterministicResolution: numbers are reals, so NaN and floating-point rounding do not arise; rationale texts are left out.
- DailyEquivalent.DailyIsTheNearest: the division is exact before it is rounded, where the code's decimal context keeps 28 digits.
- ContextPage.ValidatePayload: pages are well-typed, with a calendar date and string keys from the modelled sections; malformed JSON is left out, and so is the order in which issues are listed.
- ContextPage.ValidateContextPayload: `validate_recorded_payload`, which adds the enriched tier and the era's sections to the same checks, is left out.
- ContextPublication.BuiltPageIsClean: figures are given in units of their last printed decimal, and month names are English.
- Comparison.DeriveComparison: the lineage rows naming each cohort year, and the scoping of counts to one release, are left out; a fingerprint is the cohort it determines.
- CalendarDistance.DescriptionsMirror: reading a date out of text is left out; a date that cannot be read is None.
- Digits are ASCII, and case is folded for ASCII letters only.
