# IcebergEBS: verified models of its stateful core

IcebergEBS watches browser and editor extensions: it refreshes them from their stores, scores their
risk, and alerts on changes. This project models the parts of it that are protocols, state machines
or algorithms, and proves what they guarantee over every run and every input.

| module | models |
|---|---|
| `ChangeEvents`, `PendingAlerts`, `AlertProtocol`, `Recovery` | the durable pending-alert marker: decoding, merging, acknowledging, compare-and-clear; the protocol as a transition system with crashes; the recovery pass |
| `AlertDelivery` | delivering events against alert rules |
| `Extensions`, `ExtensionRecord`, `FetchRuns`, `FetchScores`, `RiskAlerts`, `PermissionAlerts`, `ThreatAlerts` | one extension record, its fetch, threat and triage transactions, and what its alerts say and miss over whole runs |
| `PackageDiff` | the capability diff between two package analyses |
| `Scoring`, `Posture`, `RiskFilter` | the heuristic score, the analyst policy and threat posture over it, the risk filter |
| `Provisioning` | single-sign-on provisioning against unique constraints, with other transactions committing in between |
| `LoginThrottle`, `TokenBucket`, `BoundedMaps` | the two rate limiters and their bounded maps |
| `JsonComments`, `JsonTokens`, `ScriptMask` | the inspector's comment stripper, the lexical grammar it follows, and the script masker |
| `Scheduler` | the refresh cycle and its per-store circuit breaker |
| `Footprints` | install observations and the cached footprint |
| `RetryTransport`, `TransportPool` | the outbound retry loop and the proxy transport pool |

How the model is cut:

- A database transaction, or a read-modify-write under `SELECT ... FOR UPDATE`, is one atomic step.
  Unique and check constraints are conditions on the committed table.
- Fetch results, delivery outcomes, jitter, clocks, exceptions and whatever other transactions commit are
  parameters: every theorem holds for all of them.
- Records that the source updates in place are classes; each method's contract gives the whole new
  state as a function of the old one, and the theorems are proved about those functions and about runs
  of them. `FetchRuns.RowPostureRefines` and `Recovery.RecoveryIsProtocolRun` tie the record and the
  recovery loop to the state machines.
- Where a theorem speaks through a function of the model, another one says in plain terms what that function
  amounts to: the record of failures as it is, the lexical grammar of a manifest, the sum of what each
  threshold adds, the value of a policy.
- Times and token counts are exact reals, or integers where only their order matters; clocks never run
  backwards.
- Stored JSON is modelled decoded, with the damaged shapes the source guards against as separate cases.
  A sorted list of distinct strings is a set.

Where the code does not do what one might expect of it, a lemma says exactly when:

- `Scheduler.VanishingRowsOpenStore`: a row deleted while its fetch is under way counts as a failure of
  the store (the locked re-read raises the store's error), so `threshold` of them in a row open the
  circuit of a store that answered every time. The enumeration's own comments call a removed row neutral.
- `AlertProtocol.ReappendErased`: a recovery's compare-and-clear can erase an event that a refresh
  appended and has not delivered, when the same value was read, acknowledged and detected again. The
  value has been handled by then, so at-least-once holds of values, not of occurrences.
- `TokenBucket.RefusalMovesEviction`: a refused check counts as use of its key, so over the entry limit
  it decides which key loses its bucket; below the limit it changes nothing.
- `Posture.ReapplyThreat`: applying a threat match again changes a row that had neither a heuristic nor
  an explanation before: its unknown heuristic becomes 0.
- `Posture.AllowThenRelease`: allowing and releasing an unscored extension turns its unknown score into 0.
- `PermissionAlerts.UpgradeAlertedIff`: a permission first seen in a degraded package is stored without a
  `permission_change`, then or later while it stays. A `capability_change` makes up for it once a complete
  package of a new version is seen, but not when no complete package came before or the version stays the
  same.
- `ThreatAlerts.RefreshedThreatReportedOnceIff`: a threat match is stored but never reported when an
  ingestion that looked its rows up before this one was enrolled is committed between a refresh's posture
  check and the locked re-read, and the refresh fetches a degraded package.
- `RiskFilter.FilterMatchesLevel`: a row with a negative score is shown as "low" but no risk filter finds
  it. No writer produces such a score (`Posture.PostureAlwaysConsistent`).
- `LoginThrottle.OverlappingFailureKeepsLockIff`: a failure recorded by an overlapping attempt drops an
  active lock exactly when the failure window has elapsed since its start and one failure does not lock.
- `Recovery.RecoveryClearsIff`: a merge that appends nothing still keeps the marker from being cleared in
  this pass if it cleaned junk out of it.

## Model

| member | source | states |
|---|---|---|
| `PendingAlerts.ParsePendingEvents` | app/services.py:389-414 | decoding a marker yields its well-formed events in order and drops everything else; it never fails |
| `PendingAlerts.ParseDump` | app/services.py:467-467 | a written marker decodes to exactly the events written |
| `PendingAlerts.FreshIsExact` | app/services.py:459-466 | a merge appends exactly the detected values that were not pending, once each, and keeps a duplicate-free marker duplicate-free |
| `PendingAlerts.FreshNext` | app/services.py:459-466 | events are appended in the order they were detected |
| `PendingAlerts.MergeKeepsValues` | app/services.py:455-467 | after a merge the marker holds the values pending before and those detected, and no others, whatever junk it held |
| `PendingAlerts.RemoveAllCounts` | app/services.py:643-650 | an acknowledgement removes one occurrence per delivered event and nothing else; events already gone are skipped |
| `PendingAlerts.AckIsFilter` | app/services.py:629-652 | on a duplicate-free marker an acknowledgement takes out exactly the delivered values and keeps the order of the rest |
| `PendingAlerts.AckKeepsOtherValues` | app/services.py:632-635 | events appended while a delivery was in flight survive its acknowledgement |
| `AlertProtocol.AtLeastOnceStep` | app/services.py:417-473 | no single merge, delivery, acknowledgement, recovery step, failure or crash loses a committed value or handles one never committed |
| `AlertProtocol.AtLeastOnceAlways` | app/services.py:417-443 | the same over every interleaving of any number of refreshes and recoveries |
| `AlertProtocol.NoEventIsLost` | app/services.py:587-673 | each event value committed at any point of any run is, at every later point, in the marker or handled by a `fire_alerts` that returned |
| `AlertProtocol.SingleOwnershipAlways` | app/services.py:456-473 | without recoveries the marker stays duplicate-free, the events of refreshes in flight are disjoint and all pending, and a value is fired at most as often as it was staged |
| `AlertProtocol.SingleOwnershipInitially` | app/services.py:456-473 | single ownership holds at the start exactly when the initial marker has no duplicates |
| `AlertProtocol.AcknowledgeRemovesOwnEvents` | app/services.py:629-652 | in such a run an acknowledgement removes exactly its owner's events from the marker, in place |
| `AlertProtocol.RecoveryRoundIsRun` | app/services.py:676-724 | an undisturbed recovery is the run read, deliver, clear |
| `AlertProtocol.RecoveryHeals` | app/services.py:676-683 | after any run, one undisturbed recovery whose delivery succeeds empties the marker, wholly or partly junk or not, and every value ever committed is then handled |
| `AlertProtocol.AppendSurvivesClear` | app/services.py:655-673 | over every run, whatever happens between a recovery's read and its clear: the clear erases an appended event still pending exactly when the marker holds the very text it read, and then the value was in that text and has been handled; every other appended event survives |
| `AlertProtocol.ReappendErased` | app/services.py:655-673 | the run in which an append is erased before its owner delivers it: its value was read, acknowledged and detected again |
| `AlertProtocol.UndisturbedAppendBlocksClear` | app/services.py:655-664 | when nothing is acknowledged or cleared between the read and the clear, an append always keeps the clear from matching |
| `Recovery.AlertStore.Scan` | app/services.py:685-686 | the scan finds exactly the rows with a marker, each once |
| `Recovery.AlertStore.RecoverOne` | app/services.py:695-724 | one extension's recovery changes its row only, fires its well-formed events if there are any, and clears on the raw marker |
| `Recovery.AlertStore.RecoverPendingAlerts` | app/services.py:676-724 | every row of the table ends as its own recovery leaves it, whatever fails for the others, and the handled events are exactly the well-formed ones of the rows whose delivery returned; an uninterrupted pass empties every marker |
| `Recovery.MergeUnchangedIff` | app/services.py:452-467 | a merge leaves the marker text alone exactly when it appends nothing and there was no junk to clean out |
| `Recovery.RecoveryClearsIff` | app/services.py:655-673 | a recovery that gets as far as clearing, and meets only merges, empties the marker exactly when none of them changed it, and otherwise leaves it as they made it |
| `Recovery.RecoveryLosesNothing` | app/services.py:612-624 | whatever others merge, acknowledge or clear meanwhile, a recovery takes out of the marker only what it handled, and leaves a marker that changed since the read as it is |
| `Recovery.RecoveryIsProtocolRun` | app/services.py:676-724 | what the recovery loop does to a row, and the values it hands over for it, are those of a run of the alert protocol, whatever steps other actors take while it fires and before it clears |
| `Recovery.PassLosesNothing` | app/services.py:676-724 | at least once for the pass: after any run of the protocol, and whatever others do in between, every value committed before or during the pass is in the marker it leaves or was handled by it, earlier, or by the others |
| `AlertDelivery.GroupRules` | app/notifications.py:187-189 | each event type is mapped to its selected rules, in query order |
| `AlertDelivery.DeliverEvent` | app/notifications.py:196-261 | one event is attempted once against each live rule of its type, in order, each attempt logged with its outcome |
| `AlertDelivery.FireAlerts` | app/notifications.py:142-277 | every event is attempted exactly once against every enabled rule of its type for the owner and the extension with an enabled destination, oldest event first, including several events of one type; a failed send is logged, and the call raises exactly when a query fails, before any send, or the log cannot be written, after all of them |
| `ExtensionRecord.Extension.constructor` | app/routes/api.py:640-648 | an enrolled placeholder has no version, publisher, score, marker or history |
| `ExtensionRecord.Extension.MergePendingEvents` | app/services.py:417-473 | the row's marker becomes the merged marker and the caller owns exactly what was appended |
| `ExtensionRecord.Extension.AckPendingEvents` | app/services.py:629-652 | the row's marker becomes the acknowledged marker |
| `ExtensionRecord.Extension.ApplyThreatFinding` | app/services.py:65-92 | the synthetic finding is replaced or removed and all other evidence kept |
| `ExtensionRecord.Extension.ApplyFetchResults` | app/services.py:282-338 | the row takes the effective values and the score of the fetch, and no other field changes |
| `ExtensionRecord.Extension.CapturePackageSnapshot` | app/services.py:341-386 | a complete analysis is snapshotted once per version and diffed against the latest snapshot |
| `ExtensionRecord.DetectChanges` | app/notifications.py:68-123 | the events list what differs between two states of the row, in the source's order; a first fetch reports a threat match only |
| `ExtensionRecord.Extension.FetchAndStore` | app/services.py:476-584 | one successful fetch gives the whole new row, with the events it detected merged in the same commit, and returns the ones it owns |
| `ExtensionRecord.Extension.ApplyThreatMatch` | app/services.py:142-166 | threat ingestion gives the whole new row with its event merged, and returns the events it owns |
| `ExtensionRecord.Extension.UpdateTriage` | app/routes/api.py:1237-1306 | a triage request is refused exactly when it supplies nothing or a null status or override, and then changes nothing; otherwise the row takes the supplied fields and the recomputed posture: 100 when denied or matched, 0 when allowed without a match, the heuristic otherwise |
| `FetchRuns.ChangeChains` | app/services.py:264-310 | over every run of fetches, threat ingestions and triage, including partial scrapes, failed downloads and degraded packages, the `new_version` events chain without gaps, never start or end empty, and end at the stored version; so do the `publisher_change` events |
| `FetchRuns.MissingValuesKept` | app/services.py:232-252 | what a scrape could not read and no package supplied keeps its stored value, permissions and snapshots included |
| `Extensions.TwoReadingsSuffice` | app/services.py:201-229 | loading the two latest install readings gives the same previous reading as the whole history would |
| `FetchRuns.ReadValuesStored` | app/services.py:303-337 | what it could read is stored, with the time and the install reading; the inspected version wins where the package has one, the scraped one otherwise, and a package author never replaces a publisher |
| `FetchRuns.InspectedStored` | app/services.py:303-310 | the stored analysis holds the permissions, hosts, domains, remote-code flag and findings of the inspected package |
| `FetchScores.FetchExplained` | app/services.py:527-546 | each category of the stored explanation is the score of the scraped and inspected values, or of the stored ones where there are none, and the heuristic is their sum |
| `FetchRuns.DetectedIsPending` | app/services.py:564-583 | what a transaction detects is pending from its own commit on, behind what was pending before, and nothing else is |
| `FetchRuns.ThreatFindingExact` | app/services.py:65-92 | the stored analysis holds exactly one threat finding while the list names the extension and none otherwise, the package's findings are untouched, and repeating it changes nothing |
| `FetchRuns.ThreatFindingTells` | app/services.py:61-92 | the finding is a critical one whose detail tells the entries, cut to 1000 characters, and the event of a match carries every entry |
| `FetchRuns.ThreatDetailNext` | app/services.py:61-92 | the detail tells every entry with its reason, in order, with semicolons between |
| `RiskAlerts.LevelEventsAreMoves` | app/notifications.py:94-97 | over every run the `risk_level_change` events are exactly the changes of level that fetches of complete packages, fetches without one and threat matches make to a row fetched before, in order, with both levels |
| `FetchRuns.NoAnalysisNoPermissionChange` | app/services.py:239-241 | a fetch that could not inspect the package neither changes the stored permissions nor reports a change of them |
| `FetchRuns.PermissionChangeReported` | app/services.py:575-581 | a later fetch that changes the stored permissions reports exactly that change if and only if the package was not degraded |
| `PermissionAlerts.ChangeReportedIff` | app/services.py:575-581 | over every run, a `permission_change` tells of an added permission if and only if a fetch after the first added it from a package that was not degraded |
| `PermissionAlerts.AdditionAlertedIff` | app/package_diff.py:36-42 | over every run, some alert of either kind tells of an added permission if and only if a fetch after the first added it from a package that was not degraded, or a snapshot has it and the one before has not |
| `PermissionAlerts.DegradedAdditionAlertedIff` | app/services.py:575-581 | a permission that a degraded package stores, untold before, is told of while it stays exactly when a complete package without it was snapshotted before and a version without a snapshot is after |
| `PermissionAlerts.UpgradeAlertedIff` | app/services.py:341-386 | a package is upgraded and the further permission is seen degraded first, then complete: no alert tells of it exactly when the first package was not complete or the version is the same |
| `FetchRuns.CaptureKeepsOnePerVersion` | app/models.py:215-216 | capturing keeps at most one snapshot per version, never removes one, and reports the diff from the previous snapshot |
| `FetchRuns.CapabilityAlertsAreSnapshotDiffs` | app/services.py:341-386 | over every run the capability alerts are exactly the non-empty diffs between consecutive snapshots, in order, and there is at most one snapshot per version |
| `FetchRuns.CapabilityAlertsTell` | app/notifications.py:111-118 | over every run each capability alert names the versions of two consecutive snapshots and tells exactly what the second adds, and no snapshot that adds something goes untold |
| `FetchRuns.OneCapabilityAlertPerVersion` | app/services.py:344-348 | no version of an extension gets a second capability alert, however often it is fetched |
| `FetchRuns.RowPostureRefines` | app/services.py:317-334 | the posture of the record moves as the posture state machine does |
| `FetchRuns.RowPostureConsistent` | app/services.py:317-334 | in every run of the record the stored score and explanation agree with its heuristic, threat flag and policy |
| `FetchRuns.RowPolicyDecides` | app/scoring.py:225-247 | in every run of the record "deny" and a threat match show 100 and critical, "allow" without a match 0 and suppressed, and no policy the heuristic |
| `ThreatAlerts.ThreatReportedOnceIff` | app/services.py:564-581 | over every run whose threat list only grows, a row that matches it gets exactly one `threat_match` event, unless the fetch of a degraded package set the flag: exactly then none |
| `ThreatAlerts.RefreshedThreatReportedOnceIff` | app/scheduler.py:98-101 | when every fetch comes after a posture check, as in every refresh, the event is missing exactly when the check found nothing, an ingestion that missed the row was committed after it, and the fetch of a degraded package was the first to notice |
| `ThreatAlerts.CheckedMatchReported` | app/services.py:169-184 | a match that a posture check finds, and that was not lost before it, is reported exactly once, whatever is fetched after it, degraded or not |
| `ThreatAlerts.MatchLost` | app/services.py:575-581 | the race: a posture check that finds nothing, the missed ingestion, a degraded fetch; a later check of the same match reports nothing |
| `PackageDiff.ComputeNewFindings` | app/package_diff.py:16-27 | the loop collects the well-formed new findings in order, each once |
| `PackageDiff.ComputeDiff` | app/package_diff.py:30-52 | the diff of two analyses, filled in field by field |
| `PackageDiff.NewFindingsExact` | app/package_diff.py:16-27 | the new findings are those of the new analysis whose key the old one lacks, without duplicates, damaged items ignored |
| `PackageDiff.DiffIsNoneIffNothingAdded` | app/package_diff.py:30-35 | there is no diff exactly when the new analysis adds no permission, domain, finding or remote code; removals never make one |
| `PackageDiff.DiffExact` | app/package_diff.py:36-52 | each field of the diff holds exactly what the new analysis has and the old one lacks |
| `PackageDiff.DiffTriangle` | app/package_diff.py:36-42 | whatever a step from one version to a later one adds was added by one of the steps between, so no sequence of versions slips a capability through |
| `Scoring.ScoreCodeFindings` | app/scoring.py:329-335 | the loop adds up the weights of the findings that count |
| `Scoring.CategoriesWithinCaps` | app/scoring.py:157-192 | every category stays within its cap and the caps add up to 100, so the final clamp never bites and the total is the sum of its explanation |
| `Scoring.PermissionScoreIsMaximum` | app/scoring.py:48-61 | the permission score is the weight of the heaviest permission or host pattern |
| `Scoring.ScoresByThreshold` | app/scoring.py:64-118 | the popularity, staleness and publisher scores are the sums of what each threshold adds |
| `Scoring.SuddenDropIff` | app/scoring.py:76-83 | a fall of more than 30% since the previous reading, and nothing else, adds 10 points, up to 20 |
| `Scoring.AnalysisScoresByThreshold` | app/scoring.py:121-154 | the code and domain scores are the capped sums of what each signal adds, domains counted by their registrable part |
| `Scoring.FindingTotalIs` | app/scoring.py:329-335 | a counting finding weighs 6, 4 or 2 by its severity |
| `Scoring.MissingAnalysisShift` | app/scoring.py:121-140 | losing the package analysis moves the total by exactly 12 less the two scores read from it, so by all 12 exactly for a package without code signals or domains |
| `Scoring.PopularityAntitone` | app/scoring.py:64-83 | with the same previous reading, more installs never raise the popularity score |
| `Scoring.FindingTotalMonotone` | app/scoring.py:329-335 | more findings, in any order, never lower their total weight |
| `Scoring.ScoreMonotone` | app/scoring.py:157-192 | more permissions, findings, domains, obfuscation or age, or fewer installs, never lower the total |
| `Posture.PostureAlwaysConsistent` | app/services.py:142-165 | in every state reachable from enrolment by threat ingestion, fetches and triage, the score is the policy over the stored heuristic, the explanation shows the score and its level, and the heuristic is within 0 and 100 |
| `Posture.PolicyDecides` | app/scoring.py:225-247 | over every run from enrolment "deny" and a threat match show 100 and critical in the row and its explanation, "allow" without a match 0 and suppressed, and no policy the heuristic and its level |
| `Posture.HeuristicIsLastFetch` | app/services.py:317-334 | the heuristic is the score the last fetch computed, whatever policies and threat matches came before and since |
| `Posture.PolicyIsLastSet` | app/routes/api.py:1267-1286 | the policy is the last one a triage request set |
| `Posture.ThreatStaysCritical` | app/scoring.py:225-241 | a threat match, once set, holds for the rest of any run and forces 100 and "critical", in the row and its explanation, whatever the policy |
| `Posture.TriageKeepsHeuristic` | app/routes/api.py:1267-1286 | any sequence of policy changes leaves a stored heuristic alone, so one that ends in `none` without a threat restores it as the score |
| `Posture.ReapplyThreat` | app/scoring.py:250-273 | applying a threat match a second time changes nothing exactly when the row had a heuristic or an explanation before the first |
| `Posture.AllowThenRelease` | app/scoring.py:250-273 | allowing and then releasing a row restores its score exactly when it had one |
| `Posture.HeuristicRecoverable` | app/scoring.py:250-273 | the heuristic of a fetched row can be recovered from its explanation alone, whatever policy or threat match it was stored under |
| `RiskFilter.BandsAre` | app/extension_queries.py:27-30 | the derived ranges tile the nonnegative scores at the thresholds |
| `RiskFilter.FilterMatchesLevel` | app/extension_queries.py:84-97 | the filter for a level selects exactly the rows displayed with that level, except exactly the unsuppressed rows with a negative score and the filter "low" |
| `RiskFilter.FiltersPartition` | app/extension_queries.py:84-97 | every row with a score of at least zero is selected by exactly one of the five filters, the one naming its level |
| `Provisioning.MapRoleIsHighest` | app/oidc/service.py:202-217 | the mapped role is the highest one any group grants, in whatever order, and analyst when none grants one |
| `Provisioning.MapRoleIff` | app/oidc/service.py:202-217 | only a group mapped to "admin" makes an administrator, and an auditor is one mapped to that and to nothing stronger |
| `Provisioning.OwnTxnEvolves` | app/oidc/service.py:385-494 | what a call commits is itself something every other call tolerates, so any number of calls may overlap |
| `Provisioning.Directory.MatchIdentity` | app/oidc/service.py:343-362 | finds the account of an (issuer, subject) pair within one provider, or shows there is none |
| `Provisioning.Directory.ForeignIdentityExists` | app/oidc/service.py:365-378 | tells whether another provider holds the pair |
| `Provisioning.Directory.EmailOwner` | app/oidc/service.py:381-382 | finds some account with the address, or shows there is none |
| `Provisioning.Directory.SyncEmail` | app/oidc/service.py:292-340 | changes at most this account's email, only from a verified claim; with nothing committing meanwhile it adopts a free address and never takes over another account's |
| `Provisioning.Directory.SyncReturningUser` | app/oidc/service.py:237-289 | refuses exactly a different tenant, changing nothing; otherwise the account gets the tenant and, if the provider manages it, the mapped role, a role change sets the session cutoff, what differs from the stored row is committed first, and with nothing else committing the table holds exactly that and the synchronised email |
| `Provisioning.Directory.SyncRow` | app/oidc/service.py:246-287 | the tenant and the role are written exactly when one of them changes, under the row lock |
| `Provisioning.Directory.TryCreate` | app/oidc/service.py:445-460 | the insert commits exactly when the constraints allow it, and then adds one IdP-managed account bound to the pair |
| `Provisioning.Directory.AfterViolation` | app/oidc/service.py:460-491 | after a unique violation the call re-derives what happened: it returns the account of the pair, refuses, or creates it under a wider name |
| `Provisioning.Directory.ProvisionOidcUser` | app/oidc/service.py:385-494 | whatever commits in between: a returned account carries exactly the provider, issuer and subject; a pair bound before resolves to the same account through its provider, whose changes are committed, and is refused through any other; only that account is changed or created, a refusal changes nothing; with nothing committing meanwhile the whole decision and the table afterwards are fixed |
| `Provisioning.LoginRun` | app/oidc/service.py:385-411 | over any sequence of logins with anything committing before, during and between them, a bound pair keeps resolving to one account through its provider and is refused through others, different pairs never share an account, and no two accounts share a username or single-sign-on accounts an email |
| `LoginThrottle.LoginRateLimiter.RetryAfter` | app/ratelimit.py:46-52 | the whole seconds left on a lock, or none |
| `LoginThrottle.LoginRateLimiter.RecordFailure` | app/ratelimit.py:54-64 | the failure is counted in its window, locks at the threshold, and the table never exceeds 10,000 entries afterwards |
| `LoginThrottle.LoginRateLimiter.MaybePrune` | app/ratelimit.py:69-85 | expired entries are dropped first, and live ones only when that is not enough, oldest windows first |
| `LoginThrottle.PruningInvisible` | app/ratelimit.py:69-79 | every sequence of calls gets the same answers as from a limiter that never prunes, until live entries must be evicted |
| `LoginThrottle.ExpiredIff` | app/ratelimit.py:69-79 | pruning drops exactly the entries that no later call can tell from none |
| `LoginThrottle.OldestWindowGoes` | app/ratelimit.py:80-85 | with one live entry too many, the one whose window started first goes |
| `LoginThrottle.ResetForgets` | app/ratelimit.py:66-67 | a successful login forgets the failures before it, of its key only |
| `LoginThrottle.ThrottleBound` | app/ratelimit.py:46-64 | any interval shorter than the window and the lockout holds at most 2 * max_attempts - 2 recorded failures of a key (1 for a threshold of 1), over every run with guarded attempts, no reset of the key and no eviction |
| `LoginThrottle.LoginsThrottled` | app/routes/ui.py:190-209 | from a new limiter on, every such interval holds at most 2 * max_attempts - 1 failures |
| `LoginThrottle.BoundIsReached` | app/ratelimit.py:54-64 | for every threshold of at least 2 and every positive window and lockout, a guarded run reaches 2 * max_attempts - 2, so the bound cannot be lowered |
| `LoginThrottle.LockHolds` | app/ratelimit.py:46-52 | once set, a lock refuses every check until it expires, over every guarded run |
| `LoginThrottle.WaitSuffices` | app/ratelimit.py:46-52 | a refused caller is let through after waiting exactly when it waited the true time, which the answer overstates by at most one second |
| `LoginThrottle.OverlappingFailureKeepsLockIff` | app/ratelimit.py:54-63 | a failure recorded while locked keeps the lock exactly when the window has not elapsed or one failure locks |
| `TokenBucket.RequestRateLimiter.Check` | app/ratelimit.py:120-140 | the answer and new table of one check, with the table within 10,000 entries afterwards for a burst of at least 1 |
| `TokenBucket.RequestRateLimiter.MaybePrune` | app/ratelimit.py:142-157 | refilled buckets are dropped first, and live ones only when that is not enough, least recently used first |
| `TokenBucket.PruningInvisible` | app/ratelimit.py:142-151 | every sequence of checks gets the same answers as from a limiter that never prunes, until live buckets must be evicted |
| `TokenBucket.IdleIff` | app/ratelimit.py:142-151 | pruning drops exactly the buckets that no later check can tell from a new one |
| `TokenBucket.RateBound` | app/ratelimit.py:102-112 | any interval of length T allows a key at most burst + rate * T requests, over every run of checks of any keys without eviction |
| `TokenBucket.RefusalChangesNothing` | app/ratelimit.py:129-140 | over every run without eviction, a refused check changes the answer to no later check of any key |
| `TokenBucket.RefusalMovesEviction` | app/ratelimit.py:152-157 | a new key that comes to a full table of live buckets evicts the least recently checked one, which is then allowed at once; after a refused check of that key it evicts the next one instead, and the key has to wait as before |
| `TokenBucket.RefusalMattersThroughEviction` | app/ratelimit.py:142-157 | over every run of the limiter, evictions included, when a refused check changes a later answer an eviction came before that answer |
| `TokenBucket.FullTableExists` | app/ratelimit.py:152-157 | a full table in which a refused check decides the eviction |
| `TokenBucket.WaitSuffices` | app/ratelimit.py:139-140 | a refused caller is allowed later exactly when it waited the true time, however often it was refused in between and whatever other keys did; the answer overstates that time by at most one second |
| `JsonComments.StripJsonComments` | app/inspector.py:553-595 | the index-jumping scanner computes the position-by-position definition: comment characters other than newlines become spaces, and it terminates on every input |
| `JsonTokens.EveryTextHasTokens` | app/inspector.py:553-595 | every text is a sequence of string literals with escapes, comments and other characters, each ending where the grammar says |
| `JsonTokens.StripIsTokenwise` | app/inspector.py:553-595 | stripping a text blanks the comments among its tokens and keeps every literal and every other character |
| `JsonTokens.QuotedKept` | app/inspector.py:566-573 | a string quoted with its quotes and backslashes escaped is untouched wherever it starts in code, and code goes on right after it |
| `JsonComments.ModesOfStripped` | app/inspector.py:553-561 | the output is read in the same lexical modes as the input, with the comments turned into code |
| `JsonComments.NoCommentsLeft` | app/inspector.py:553-561 | no comment opener is left outside string literals |
| `JsonComments.StripPreserves` | app/inspector.py:556-560 | length, newlines and string literals, escapes included, are untouched, and any other character is kept or blanked |
| `JsonComments.StripIdempotent` | app/inspector.py:553-595 | stripping twice is stripping once |
| `JsonComments.UnchangedIffCommentFree` | app/inspector.py:553-595 | the text is unchanged exactly when it holds no comment |
| `ScriptMask.Find` | app/inspector.py:469-469 | the first occurrence at or after the cursor |
| `ScriptMask.PlacedAtFirst` | app/inspector.py:463-475 | each body is placed at its first occurrence after the last one placed, and left out exactly when it has none there, whatever became of the others |
| `ScriptMask.NewlinesAreCounted` | app/inspector.py:1001-1002 | lines are counted by newlines |
| `ScriptMask.MaskNonScript` | app/inspector.py:455-476 | the output has as many newlines as the page, every kept character is verbatim, in order and on its source line, every other one is a newline, and every body placed is kept whole |
| `ScriptMask.GreedyComplete` | app/inspector.py:458-460 | the greedy scan places every body exactly when the non-empty bodies can be placed in order without overlap at all |
| `Scheduler.RefreshOne` | app/scheduler.py:90-161 | a refresh counts as failed exactly when the store or the network failed, or the row was deleted between the start of its fetch and the locked re-read; it counts as gone exactly when the row was unlisted at the start or vanished after the commit |
| `Scheduler.FetchAndStore` | app/services.py:517-523 | the fetch raises a store failure exactly when the store or the network failed or the row was deleted meanwhile |
| `Scheduler.StoreCircuitBreaker.IsOpen` | app/scheduler.py:75-76 | a store is open exactly when the threshold is positive and the record holds that many failures of it with no success of it between them |
| `Scheduler.TrippedIff` | app/scheduler.py:59-68 | the same as having that many consecutive failures once other stores and neutral outcomes are left out |
| `Scheduler.StoreCircuitBreaker.RecordOutcome` | app/scheduler.py:78-87 | the counters keep agreeing with everything recorded |
| `Scheduler.RunNext` | app/scheduler.py:78-87 | one more outcome makes a run of failures exactly when there was one or the trailing failures reach the threshold |
| `Scheduler.RefreshWatchlist` | app/scheduler.py:215-232 | every row gets its one action although refreshes and skips may raise, and the skips that were logged are counted |
| `Scheduler.SkippedIff` | app/scheduler.py:224-227 | a row is skipped exactly when the outcomes of its store's earlier rows, had all of them been fetched, hold `threshold` consecutive failures |
| `Scheduler.SkippedIffRowsFail` | app/scheduler.py:215-232 | a row is skipped exactly when that many earlier rows of its store would fail with none that would succeed between them |
| `Scheduler.InterruptedStoreNeverSkipped` | app/scheduler.py:59-68 | a store with a success among every `threshold` of its failures is never skipped |
| `Scheduler.NeverFetchedAfterOpening` | app/scheduler.py:224-227 | from the point where the recorded history of a store trips, no later row of it is fetched |
| `Scheduler.VanishingRowsOpenStore` | app/services.py:517-523 | of rows whose fetches the store answered but that were deleted meanwhile, exactly the first `threshold` are fetched: they open the circuit of a healthy store |
| `Scheduler.HealthyStoreNeverSkipped` | app/scheduler.py:59-68 | a store that never fails, and none of whose rows is deleted during its fetch, is never skipped |
| `Scheduler.StoresAreIndependent` | app/scheduler.py:59-68 | a cycle treats the rows of a store exactly as if they were its only rows |
| `Footprints.Inventory.UpsertBatch` | app/routes/api.py:1063-1112 | the batch upserts each resolved item, reports one result per item in order with its status and id, counts them, and lists exactly the touched extensions |
| `Footprints.Inventory.IngestInventory` | app/routes/api.py:1031-1149 | a completed batch recounts the footprint of every touched extension and no other |
| `Footprints.Inventory.RefreshInstallFootprints` | app/retention.py:53-83 | every extension with a footprint or an observation is recounted over fresh observations |
| `Footprints.Inventory.PruneExpired` | app/retention.py:100-128 | exactly the observations last seen before the window are deleted, and the footprints are refreshed if any was |
| `Footprints.EveryItemTallied` | app/routes/api.py:1142-1148 | every item of a batch is counted under exactly one status |
| `Footprints.StatusExact` | app/routes/api.py:1066-1112 | which items are refused, erroneous, deferred or observed |
| `Footprints.IngestedExact` | app/routes/api.py:743-778 | after a batch an observation exists exactly when it did before or was reported, and the reported ones were last seen now |
| `Footprints.RepushKeepsCounts` | app/routes/api.py:743-758 | reporting a pair again never changes the number of observations or, without decay, any asset count |
| `Footprints.RefreshRepairs` | app/retention.py:58-65 | a refresh makes every footprint the count of assets seen at or after the cutoff, from any state, extensions no longer reported included |
| `Footprints.IngestCountsTouched` | app/routes/api.py:1114-1129 | a batch brings the extensions it touches up to date over fresh observations |
| `Footprints.IngestRevives` | app/routes/api.py:1114-1129 | a touched footprint counts exactly the assets the batch reports, stale ones revived, and those seen at or after the cutoff before |
| `Footprints.FootprintsAlwaysAgree` | app/retention.py:117-128 | without decay, after every completed enrolment, batch, prune or refresh of any run, every cached footprint is the number of assets observed |
| `RetryTransport.HandleRequest` | app/fetchers/transport.py:160-207 | at most max_retries + 1 sends, exactly one for a request that is not retryable; it stops at the first reply that is not transient and returns the last one; it sleeps at most 30 seconds per retry |
| `RetryTransport.RetryAfterHonoured` | app/fetchers/transport.py:150-158 | a 429 or 503 that asks for at most 30 seconds is waited out exactly, a longer one is cut to 30, and every other reply backs off |
| `RetryTransport.CeilingDoubles` | app/fetchers/transport.py:68-77 | the longest backoff starts at the base and doubles up to the cap, and the jitter takes a fraction of it |
| `TransportPool.ProxyRoutingTransport.TransportFor` | app/fetchers/transport.py:115-122 | the transport handed out was built for the requested route; it is the direct or the current one exactly when that has the route, and otherwise the one transport newly created; nothing is lost or closed |
| `TransportPool.ProxyRoutingTransport.HandleRequest` | app/fetchers/transport.py:124-126 | each request goes out once, on a transport of its route, and on no other |
| `TransportPool.ProxyRoutingTransport.Aclose` | app/fetchers/transport.py:128-133 | closing closes every transport ever created exactly once |

## Left out

- Store scraping, package download, senders, webhooks and SMTP: their results are parameters.
- The JavaScript detection rules, URL extraction, the Public Suffix List and the HTML parser: their results are taken as given.
- `_add_finding`, `_script_files` and the manifest field extraction: they would add only easy members.
- Cookies, password hashing, API keys, CSRF, CSP, secret scrubbing and address checks.
- Audit rows, fetch-log rows, and the retention of tables other than the install observations.
- The cosmetic fields of an extension (name, description, store URL) and the triage assignee and notes.
- The outer loops of `apply_threat_matches` over identities and tracked copies: one row is modelled, and which entries name it is a parameter.
- Deleting an extension or a user: rows persist in every run, except that a refresh may find its row deleted at any of its reads.
- The limits on the number of items in an inventory batch.
- Recovery.AlertStore.RecoverPendingAlerts: leaves out what others commit to a row between the scan and that row's turn; each row is read as the scan found it.
- Recovery.RecoveryClearsIff: is about a recovery that meets merges only; with acknowledgements or clears in between the marker can return to an earlier text, as `AlertProtocol.ReappendErased` shows.
- An exception inside change detection, which the source turns into an empty event list.
- Two marker texts that decode alike but are spelled differently: the model's markers are equal when their entries are.
- JSON values that Python compares as equal although they differ in type, such as 1 and true.
- Extra keys of a finding dictionary beyond its identity key.
- ExtensionRecord.Extension.UpdateTriage: leaves the assignee, the notes and the timestamp out of the state it describes.
- LoginThrottle.ThrottleBound: assumes a nonnegative lockout, as the configuration supplies.
- TokenBucket.RateBound: assumes a burst of at least 1 and a positive rate; with a smaller burst nothing is ever allowed.
- Provisioning.Directory.EmailOwner: which of several owners is found is left open, as the query does not order them.
- Floating-point rounding, and clocks that jump backwards.
