# Zakura operations layer: a Dafny model

This project models the durable state machines of the operations layer around the Zakura node, and proves
what they keep over every run: restarts, crashes between a write and its save, failed posts, unreachable
nodes, reorganising chains and interleaved threads included. The modules follow the components:

| module | component |
|---|---|
| `Chain`, `Sessions`, `HeaderCache`, `Nu7Status` | hash-linked chains, the calls made to one source, and the two header caches |
| `Quorum`, `Reorgs`, `Selector` | the NU7 selector: quorum search, reorganisation log, network selection |
| `StallClock`, `WaitLoop`, `Retention` | the continuous-sync controller |
| `Completions`, `DailySummary`, `Incidents` | completion accounting, summaries and incident alerts, committed only after delivery |
| `Faucet` | the claims table, its quotas and the payout worker |
| `RateLimiter`, `Inflight` | the gateway's limiters |
| `Alerts`, `Monitor` | the cluster alert monitor: alert records, and the evidence they rest on |
| `Grid` | the frontier-grid binary format |
| `Outline`, `Changelog`, `Sections`, `Release` | the outline of category sections, changelog parsing, promotion of candidates, release planning |
| `Prelude` | options, results, and the filter `Since` that describes a pruned log |

How the outside world appears: a source of blocks is a *session*, a chain per RPC call with an up/down
answer for that call; block hashes name headers through a function, which is collision-freeness. Disk is a
durable copy next to the one in memory, and a crash step restores it. Slack and the payout sender are answers
given per call, and free space is a number of bytes per check. Clocks are integers. SHA-256 is any function to 32 bytes.

Code that updates fields is a class whose methods are proved equal to functions on the abstract state; the
theorems over runs are lemmas about those functions, or methods that drive a new object through a whole run.

## Where a promise fails

Six promises do not hold on every input. Each has a counterexample and a condition under which it holds.

- Both header caches return what an uncached read would. A tip sampled on one branch and collected while the
  source stands on another stores the other branch's headers under it; back on the first branch they are served
  (`HeaderCache.StaleAfterInterruption`, `HeaderCache.InterruptedPoll`, `Nu7Status.StaleAfterInterruption`,
  `Nu7Status.InterruptedBuild`). A pinned collection is the uncached read if and only if the cached headers it
  serves are ancestors of its tip (`HeaderCache.MixedIsDirect`, `Nu7Status.WindowExact`), which
  `Nu7Status.RunBuilds` derives when every build since the cache was last emptied kept its sampled tip on the
  chain, and `HeaderCache.RunPolls` when every collection from the same source did since its headers were last
  dropped.
- The reorganisation log the selector saves can be used again. A first tip with a malformed hash, upper-case
  digits for one, is saved and refused by every later call (`Reorgs.MalformedTip`, `Reorgs.MalformedTipSticks`); `Reorgs.WrittenAccepted`
  gives the condition.
- Every state directory the selector leaves can be opened again. A first start cut off between its lock file
  and its state file leaves one that never can (`Selector.CutOffNeverOpens`); `Selector.RefusedExactly` shows
  that it is the only such case.
- Retention deletes a prefix of its queue. In recovery free space can fall between the check for an older run
  and the check for a newer one (`Retention.RecoveryCanSkip`); `Retention.RecoveryPrefixExactly` gives the
  condition.
- A day's payouts stay within the cap. `now` can be read before midnight and the start of the day after it, and
  a run of the faucet gets there (`Faucet.MidnightRace`); `Faucet.ReserveDayCap` gives the condition.
- A release plans to nothing the second time. An entry can begin with an indented line that turns into the
  heading of a candidate once stripped (`Release.SecondPlanDiffers`); `Release.ReplanExactly` gives the
  condition.

## Model

| member | source | states |
|---|---|---|
| `Chain.ViewAncestor` | deploy/runner/nu7_activation.py:526-529 | on a hash-linked chain a block's hash determines every block below it, so one equal hash means equal chains below |
| `Sessions.WindowStart` | deploy/runner/nu7_activation.py:525 | the window holds exactly the tip and those of the 300 blocks before it that lie at or above activation |
| `Sessions.DirectIsRecent` | deploy/runner/nu7_activation.py:525-537 | the uncached read of the window is the one sequence that descent from the sampled tip calls for: one header for each block of the window, by ancestry, and no others |
| `HeaderCache.CoherentExtend` | deploy/runner/nu7_activation.py:526-530 | moving a source's anchor to a later tip of the same chain keeps its cached headers ancestors of the anchor |
| `HeaderCache.OthersKept` | deploy/runner/nu7_activation.py:532-538 | a collection from one source keeps the headers of every other source coherent, or drops them |
| `HeaderCache.ActivationHeaders.constructor` | deploy/runner/nu7_activation.py:89-138 | a new feed has cached nothing |
| `HeaderCache.ActivationHeaders.Clear` | deploy/runner/nu7_activation.py:641-642 | selecting a network forgets every cached header and tip |
| `HeaderCache.ActivationHeaders.Anchor` | deploy/runner/nu7_activation.py:526-530 | the cache is emptied exactly when the recorded tip is above the new one or gone from the chain, and otherwise kept; a failed read leaves cache and anchors as they were; on a chain that keeps the sampled tip a coherent cache stays coherent |
| `HeaderCache.ActivationHeaders.Gather` | deploy/runner/nu7_activation.py:531-537 | the newest three headers are always read anew, a cached one below them is served and a missing one is read; whatever is new in the cache is the source's own, lies at or below the tip and was read in this collection |
| `HeaderCache.ActivationHeaders.Confirm` | deploy/runner/nu7_activation.py:541-543 | publishing is granted exactly when both closing calls are answered, the chain reaches the sampled height and the source holds the sampled block there |
| `HeaderCache.ActivationHeaders.Collect` | deploy/runner/nu7_activation.py:525-543 | an answer means that the source still held the sampled block; a collection that read its window leaves only that window of its source cached, confirmed or not; on a chain that keeps the sampled tip the answer is the uncached read if and only if the cached headers it serves are ancestors of that tip; a chain that answers throughout gets an answer |
| `HeaderCache.MixedIsDirect` | deploy/runner/nu7_activation.py:531-537 | serving cached headers gives the uncached read if and only if each one served is the ancestor of the tip at its height |
| `Sessions.ExtensionPins` | deploy/runner/nu7_activation.py:525-543 | a chain that only extends during the calls of one collection keeps the sampled tip throughout |
| `HeaderCache.RunPolls` | deploy/runner/nu7_activation.py:525-543 | over any run of polls and selections, with reorganisations between and during polls, changing primaries and failing reads, a collection whose chain keeps the sampled tip is the uncached read, and so the headers of its window by descent from the tip, whenever every collection from the same source kept its tip too since its headers were last dropped by a selection, an emptied cache, or a collection from another source that read its window |
| `HeaderCache.NewPrimary` | deploy/runner/nu7_activation.py:525-543 | a source not collected from since the last selection meets that condition, whatever was collected from others |
| `HeaderCache.StaleAfterInterruption` | deploy/runner/nu7_activation.py:525-543 | for any two branches that differ within the window, a collection refused on one branch makes the next one on the other, whose chain keeps the sampled tip, return something else than the uncached read |
| `HeaderCache.InterruptedPoll` | deploy/runner/nu7_activation.py:525-543 | such branches exist at every length from 4 to 300 |
| `Nu7Status.Status.RecordTip` | deploy/runner/zakura-cluster-status.py:2380-2394 | the pruned deques hold exactly the complete logs of blocks and replacements over the trailing day of the generation, which grow by the rise of the tip and by one for a replacement; an extension is never a replacement; a failed read changes nothing |
| `Nu7Status.PruneOnce` | deploy/runner/zakura-cluster-status.py:2391-2394 | pruning at every poll is pruning the complete log once |
| `Nu7Status.Status.Fill` | deploy/runner/zakura-cluster-status.py:2337-2340 | every header of the window is cached afterwards; no cached header is lost or changed, and whatever is new was read in this session |
| `Nu7Status.Status.SampleHeaders` | deploy/runner/zakura-cluster-status.py:2332-2343 | on a chain that keeps the sampled tip the sampled window is the uncached read if and only if the cached headers in it are ancestors of the recorded tip |
| `Nu7Status.Status.Build` | deploy/runner/zakura-cluster-status.py:2412-2414 | recording the tip and then sampling gives the uncached read if and only if what the comparison left in the cache lies below the new tip, and keeps an anchored cache anchored |
| `Nu7Status.WindowExact` | deploy/runner/zakura-cluster-status.py:2332-2343 | a window of cached and fresh headers is the uncached read if and only if the cached ones are ancestors of the tip |
| `Nu7Status.RunBuilds` | deploy/runner/zakura-cluster-status.py:2332-2394 | over any run of builds, with reorganisations between and during them and failing reads, a build whose chain keeps the sampled tip answers with the uncached read, and so with the headers of its window by descent from the tip, whenever all those since the cache was last replaced kept theirs too |
| `Nu7Status.StaleAfterInterruption` | deploy/runner/zakura-cluster-status.py:2332-2394 | for any two branches that differ within the window, a build during a stay on one branch makes the next build on the other serve headers of the first |
| `Nu7Status.InterruptedBuild` | deploy/runner/zakura-cluster-status.py:2332-2394 | such branches exist at every length from 2 to 300 |
| `Quorum.Candidates` | deploy/runner/nu7_activation.py:409-411 | the candidates are exactly the sources that are fresh, active and two blocks past activation |
| `Quorum.CombinationsComplete` | deploy/runner/nu7_activation.py:419-420 | the search tries exactly the combinations of the required size |
| `Quorum.ReadAll` | deploy/runner/nu7_activation.py:423-425 | one height read from every source gives their common hash, or nothing exactly when they do not all report one hash |
| `Quorum.Endorsers` | deploy/runner/nu7_activation.py:427-437 | the evidence names exactly the candidates that read both certified hashes |
| `Quorum.Agreement` | deploy/runner/nu7_activation.py:406-440 | sound: evidence means the required sources were eligible, each was recent at its own reading of the clock in the last recheck, and they agree at the activation and common heights; complete: without evidence no combination was recent at every reading made and agreed; readings are bounded by three per combination |
| `Quorum.EvidenceMeans` | deploy/runner/nu7_activation.py:406-440 | on the observations alone: evidence means that all three nodes on Mainnet, or two nodes and the reference on the testnet, answered, were active two blocks past activation and observed within a minute, then and at their own later clock reading, and read its two hashes; its common height is that of the lowest of them |
| `Quorum.CrewAvailable` | deploy/runner/nu7_activation.py:406-440 | whatever such a set of sources there is, the search has it available, so that it comes back without evidence only when there is none |
| `Quorum.SharedSource` | deploy/runner/nu7_activation.py:406-440 | any two certifying combinations share a source |
| `Quorum.NoConflict` | deploy/runner/nu7_activation.py:406-440 | two evidences from one set of observations certify one chain: same activation block, and the lower common block is an ancestor of the higher |
| `Quorum.SortDescends` | deploy/runner/nu7_activation.py:507 | candidates for the published tip are considered highest first, none lost or repeated |
| `Quorum.ChoosePrimary` | deploy/runner/nu7_activation.py:500-520 | the published tip is the highest agreeing tip that a second validator confirms, and there is none only when none is confirmed |
| `Quorum.ConfirmedExactly` | deploy/runner/nu7_activation.py:500-520 | a tip is confirmed exactly when a source of another name, at least as high, reads the same hash at its height |
| `Reorgs.Acceptable` | deploy/runner/nu7_activation.py:442-498 | the loop over the stored events accepts exactly the logs the validator does |
| `Reorgs.AcceptsExactly` | deploy/runner/nu7_activation.py:465-473 | the validator accepts a log exactly when every time in it is positive and past, the events come in order between its two other times, there are at most 10,000, and the baseline has a height and a well-formed hash |
| `Reorgs.HashExactly` | deploy/runner/nu7_activation.py:473 | a hash is well formed exactly when it is 64 lower-case hexadecimal digits |
| `Reorgs.Observer.Record` | deploy/runner/nu7_activation.py:442-498 | each outcome and the log it leaves; a raised error leaves the log alone |
| `Reorgs.AnsweredExactly` | deploy/runner/nu7_activation.py:442-498 | a call is answered exactly when the log is acceptable, the tip is confirmed, and a tip that moved without falling has a readable ancestor, which is the baseline unless there is room for an event |
| `Reorgs.ReportsExactly` | deploy/runner/nu7_activation.py:442-498 | a number is reported exactly when there is a baseline and the tip is not below it; a lower tip leaves the log alone, and any other becomes the baseline |
| `Reorgs.ReplacementExact` | deploy/runner/nu7_activation.py:442-498 | a replacement is counted exactly when the baseline is no ancestor of the new tip |
| `Reorgs.WrittenAccepted` | deploy/runner/nu7_activation.py:442-498 | the log a call writes passes the validator of every later call exactly when the sampled tip was well formed |
| `Reorgs.BaselineNeverFalls` | deploy/runner/nu7_activation.py:442-498 | over every run of polls, failed polls, saves and crashes the height of the durable baseline never falls |
| `Reorgs.RunBehind` | deploy/runner/nu7_activation.py:442-498 | in every run the durable baseline is never above the one in memory |
| `Reorgs.MalformedTipSticks` | deploy/runner/nu7_activation.py:442-498 | a first confirmed tip that the validator would refuse, once saved, is all that memory and disk ever hold, and every later call raises |
| `Reorgs.MalformedTip` | deploy/runner/nu7_activation.py:442-498 | such a tip, at every height: 64 hexadecimal digits in upper case |
| `Reorgs.RunRefines` | deploy/runner/nu7_activation.py:442-498 | over every run of polls, failed polls, saves and crashes, memory and disk hold the complete history of replacements filtered to the trailing day, and both stay acceptable |
| `Reorgs.PublishedCount` | deploy/runner/nu7_activation.py:442-498 | a first tip and a tip below the baseline publish no number, and any other publishes the number of replacements in the trailing 24 hours of the complete history |
| `Reorgs.CapacityUnreachable` | deploy/runner/nu7_activation.py:707-714 | with polls at least ten seconds apart no run reaches the 10,000-event cap |
| `Selector.AcceptableOpens` | deploy/runner/nu7_activation.py:89-138 | the constructor opens a stored state exactly when it meets the condition that every run keeps on disk |
| `Selector.Feed.constructor` | deploy/runner/nu7_activation.py:89-138 | a restart keeps the selected profile, its evidence and the remembered generation and none of the streaks; what it offers belongs to the selected profile; the state it saves reopens to itself |
| `Selector.Feed.Poll` | deploy/runner/nu7_activation.py:644-696 | the new state, and that disk and payload change only when a poll completes |
| `Selector.PublicExactly` | deploy/runner/nu7_activation.py:644-656 | a process on staging leaves it exactly with the poll that makes the third evaluation in a row with an agreement, when the public testnet is armed |
| `Selector.MainnetExactly` | deploy/runner/nu7_activation.py:657-672 | a process selects Mainnet exactly with the poll that makes the third Mainnet evaluation in a row with an agreement, reference parameters and the complete table, when Mainnet is armed |
| `Selector.PublishedExactly` | deploy/runner/nu7_activation.py:673-700 | what a completed poll publishes is available exactly when its status was observed or it switched to Mainnet; only available generations of a selected network are remembered, and a switch forgets the one before it |
| `Selector.PollTracks` | deploy/runner/nu7_activation.py:634-696 | however far a poll gets, counters equal the streak of passing evaluations, the profile moves only forward, and what is published belongs to the selected profile |
| `Selector.NeverFallsBack` | deploy/runner/nu7_activation.py:634-696 | over every run of starts, polls, crashes and restarts the durable and the published profile only move forward through staging, public testnet, mainnet |
| `Selector.StartsExactly` | deploy/runner/nu7_activation.py:89-138 | a start that gets through saves the adopted state, leaves its marker and offers the remembered generation; one that does not leaves only its lock file |
| `Selector.PollsExactly` | deploy/runner/nu7_activation.py:644-700 | a completed poll is saved and published, and one that raises leaves disk and offer as they were |
| `Selector.SelectionsEarned` | deploy/runner/nu7_activation.py:644-680 | every selection in every run follows three passing evaluations of one process with no failing one between, and takes the evidence of the third |
| `Selector.EvidenceEarned` | deploy/runner/nu7_activation.py:634-680 | from an empty directory, the evidence saved with a selection is that of the third of three passing evaluations, over every run |
| `Selector.PollFleet` | deploy/runner/nu7_activation.py:624-680 | whatever a poll selects, it selects on evidence that is sound for what the same poll observed |
| `Selector.WrittenStateReopens` | deploy/runner/nu7_activation.py:89-138 | every state any run leaves on disk is accepted by the constructor under the configuration that wrote it |
| `Selector.RefusedExactly` | deploy/runner/nu7_activation.py:89-138 | from an empty directory under one configuration, a start is refused if and only if the first start was cut off between lock file and state file |
| `Selector.CutOffNeverOpens` | deploy/runner/nu7_activation.py:89-138 | a first start cut off after its lock file leaves a directory that no later start opens, whatever is tried in between |
| `StallClock.Classify` | deploy/continuous-sync/continuous-sync.py:637-669 | each of the five classes exactly, on the sample: a backlog is a known header above a known height on a native stack with working metrics and no fallback |
| `StallClock.HighestIsMaximum` | deploy/continuous-sync/continuous-sync.py:154-180 | the reference height is the maximum of all heights seen |
| `StallClock.LastResetLatest` | deploy/continuous-sync/continuous-sync.py:154-221 | the clock counts from the latest reset: a new highest height or a sample without backlog |
| `StallClock.StallSplitsElapsed` | deploy/continuous-sync/continuous-sync.py:154-221 | stall time and excluded time are never negative and together make up the time since the reset |
| `StallClock.SyncProgress.Observe` | deploy/continuous-sync/continuous-sync.py:154-221 | the fields and verdict after one sample |
| `StallClock.FoldTracks` | deploy/continuous-sync/continuous-sync.py:154-221 | after every run the fields stand for the quantities defined on the history alone |
| `StallClock.StallClockExact` | deploy/continuous-sync/continuous-sync.py:154-221 | at every backlog sample of every run the clock is the sum of the gaps that follow known-backlog samples since the last reset, and the failure verdict is the one the history calls for |
| `StallClock.StandstillStops` | deploy/continuous-sync/continuous-sync.py:154-221 | a node that knows of headers above its height and commits nothing since its highest sample is stopped exactly when that has lasted the stall time |
| `StallClock.LegacyStandstillStops` | deploy/continuous-sync/continuous-sync.py:154-221 | on a legacy stack the same holds of the height alone |
| `StallClock.BlindnessStops` | deploy/continuous-sync/continuous-sync.py:154-221 | a stretch of samples that say nothing stops the run exactly when it has lasted long enough |
| `StallClock.OtherStops` | deploy/continuous-sync/continuous-sync.py:154-221 | a hand-over to the legacy driver stops the run at once, and a node level with its headers is never stopped |
| `WaitLoop.SettledIsStreak` | deploy/continuous-sync/continuous-sync.py:784-797 | the ready counter is the length of the current streak of ready samples |
| `WaitLoop.Pass` | deploy/continuous-sync/continuous-sync.py:745-797 | one pass raises exactly the first objection the history calls for: time, space, service, log rotation, missing height, stall |
| `WaitLoop.ObjectionMeans` | deploy/continuous-sync/continuous-sync.py:745-782 | what each objection of a pass means on its clock reading, its checks and the samples so far, in order |
| `WaitLoop.WaitForCompletion` | deploy/continuous-sync/continuous-sync.py:739-797 | the wait ends within its time budget; it succeeds exactly at the first pass that completes a ready streak with no objection before or at it, and otherwise raises the first objection |
| `Retention.Protect` | deploy/continuous-sync/continuous-sync.py:934-937 | exactly the active run and the latest failed run are protected |
| `Retention.SortOrders` | deploy/continuous-sync/continuous-sync.py:939-940 | complete runs first, oldest first within each group, and no run lost |
| `Retention.QueueOrder` | deploy/continuous-sync/continuous-sync.py:939-942 | the queue is exactly the unprotected runs, complete ones first and oldest first within each group |
| `Retention.NeededExact` | deploy/continuous-sync/continuous-sync.py:938-952 | deleting one run fewer leaves a bound exceeded, and deleting that many meets both unless the queue is empty |
| `Retention.Walk` | deploy/continuous-sync/continuous-sync.py:938-952 | a run goes exactly when the runs not deleted before it are too many or too large, or its own free-space check in recovery fails; the running count and total are exact |
| `Retention.LawfulDecides` | deploy/continuous-sync/continuous-sync.py:938-952 | decided one by one, the bounds alone take exactly the needed front of the queue, and the space checks the rest |
| `Retention.CleanupRetention` | deploy/continuous-sync/continuous-sync.py:917-952 | kept and deleted divide the runs; only runs other than the active and the latest failed one go, complete ones first and oldest first, each exactly when those not deleted before it exceed a bound or its own space check fails in recovery; without recovery the deletions are a prefix of that order, runs within both bounds lose nothing, and still over a bound only spared runs remain |
| `Retention.ProtectedSurvive` | deploy/continuous-sync/continuous-sync.py:940-942 | a deleted run was never a protected one, with or without recovery |
| `Retention.PlainCleanup` | deploy/continuous-sync/continuous-sync.py:938-952 | without recovery the deleted runs are a prefix of the queue, a survivor means both bounds hold, and no deletion was unnecessary |
| `Retention.RecoveryPrefix` | deploy/continuous-sync/continuous-sync.py:943-952 | in recovery, when free space never falls between the checks past the bounds, the deleted runs are the shortest prefix of the queue that meets both bounds and the reserve |
| `Retention.RecoveryPrefixExactly` | deploy/continuous-sync/continuous-sync.py:480-488 | every configured minimum deletes from the front of the queue if and only if free space never falls between those checks |
| `Retention.RecoveryCanSkip` | deploy/continuous-sync/continuous-sync.py:480-488 | a writer that takes one byte between two checks makes the newer of any two runs go and the older one stay |
| `Completions.CompletedDescribes` | deploy/continuous-sync/continuous-sync.py:1068-1097 | a completed run gets the next number, and the retained history is the newest 256 completed runs |
| `Completions.AbsorbTrue` | deploy/continuous-sync/deploy.py:800-840 | an honest status absorbed into a cursor counts exactly the unreported runs and lists the newest retained ones in order |
| `Completions.CompletionUpdates` | deploy/continuous-sync/deploy.py:800-868 | when due, exactly the configured nodes and those with unreported runs get a section, and what was reported is cleared; otherwise counts accumulate |
| `Completions.DigestConserves` | deploy/continuous-sync/deploy.py:800-868 | over every run of completions and audits, due or not, lost, delivered, or delivered before a crash that loses the save, the saved sections cover consecutive stretches of a node's run numbers, each listing the newest 256 of its stretch in order and counting the rest; the record holds exactly the stretch still to report; every delivered section is true, and two share a run number only if the save after the earlier one was lost |
| `Completions.DigestReportsAll` | deploy/continuous-sync/deploy.py:800-868 | a delivered digest that reached the node accounts for every finished run, and one that is also saved settles them all |
| `DailySummary.CollectStatuses` | deploy/continuous-sync/daily_summary.py:90-119 | exactly the statuses consistent with the cursor are kept, and every other node keeps its delivered cursor |
| `DailySummary.HeardExactly` | deploy/continuous-sync/daily_summary.py:104-118 | which statuses are heard, on counter, run id and cursor; whatever a node answers, its cursor never falls, stays well formed, and moves only to what was heard |
| `DailySummary.Deliver` | deploy/continuous-sync/daily_summary.py:122-162 | each refusal in order, the stored states that are refused, and a state to save only after a confirmed post |
| `DailySummary.SavedLoads` | deploy/continuous-sync/daily_summary.py:47-71 | whatever the nodes answered, a saved state loads at every later time |
| `DailySummary.NodeReports` | deploy/continuous-sync/daily_summary.py:90-162 | a reachable node is heard, its section covers exactly the runs after the cursor, and the cursor moves to its last run |
| `DailySummary.ReportsTile` | deploy/continuous-sync/daily_summary.py:122-162 | across cycles, unreachable nodes, failed posts and crashes, the saved posts report each run number of a node once and in order from the starting cursor to the saved one, and every confirmed post is true |
| `DailySummary.UnsavedRepeats` | deploy/continuous-sync/daily_summary.py:122-162 | over every run, two confirmed posts that both report a run number of a node are only possible when the earlier one was not followed by its save |
| `DailySummary.StateAlwaysLoads` | deploy/continuous-sync/daily_summary.py:47-162 | in every run each saved state still loads, and slots never go back |
| `Incidents.Judge` | deploy/continuous-sync/deploy.py:652-726 | a problem is new exactly when neither its own record nor, without any record, a receipt has told it; one that was told is reminded exactly when reminders are due an interval after that; and the record it leaves |
| `Incidents.AuditTransitions` | deploy/continuous-sync/deploy.py:652-726 | the line and record of every node, with records for other destinations ignored |
| `Incidents.CmdAudit` | deploy/continuous-sync/deploy.py:893-953 | what an audit posts, only of inspected nodes, and the state it leaves: unchanged when it had something to say and could not, and otherwise each node's own record |
| `Incidents.LinesAreEvents` | deploy/continuous-sync/deploy.py:652-726 | new, reminder and recovery lines are exactly the notices of the trace |
| `Incidents.EveryTrace` | deploy/continuous-sync/deploy.py:652-726 | over every run of audits that save what they post, failed posts and targeted audits included, each incident has one first notice, later ones at least the reminder interval apart, and the saved record is the incident left open with its first time unchanged |
| `Incidents.ProblemLines` | deploy/continuous-sync/deploy.py:652-726 | over every run: a problem other than the open incident is posted as new, unless none is open and its controller delivered a receipt; one that was told is reminded exactly by a full audit an interval after the last digest and after that notice |
| `Incidents.ReceiptsDelivered` | deploy/continuous-sync/deploy.py:686-704 | a first notice counts as a receipt only where one was delivered and nothing was on record, and then carries its time |
| `Incidents.DigestMoves` | deploy/continuous-sync/deploy.py:893-953 | the digest time moves only with a kept full audit at least an interval later, and then to its own time |
| `Incidents.RecoveryExactly` | deploy/continuous-sync/deploy.py:652-726 | recovery is posted exactly by an audit that inspects the node, finds nothing, and finds the incident still open |
| `Incidents.NothingLost` | deploy/continuous-sync/deploy.py:893-953 | a failed post leaves the state as it was, and uninspected nodes keep their records |
| `Faucet.ReserveKeepsQuotas` | deploy/nu7-fork/faucet.py:166-193 | whatever clocks competing threads read, an accepted claim keeps the spacing, address, IP and queue quotas |
| `Faucet.RefusedExactly` | deploy/nu7-fork/faucet.py:166-193 | on the rows alone: a request is accepted exactly when no quota stops it, and refused by the first that does |
| `Faucet.ReserveDayCap` | deploy/nu7-fork/faucet.py:166-193 | an accepted claim keeps its day within the cap if and only if its day start is not after its clock read, or the day still had room; the clock may step either way between the two reads |
| `Faucet.MidnightRace` | deploy/nu7-fork/faucet.py:166-193 | a run of requests and payouts fills a day to its cap, and one more request whose two clock reads straddle midnight exceeds it |
| `Faucet.Oldest` | deploy/nu7-fork/faucet.py:214 | the row taken is the oldest queued one, and none is taken only when none is queued |
| `Faucet.Recovered` | deploy/nu7-fork/faucet.py:89-90 | a restart leaves no claim in flight, moves those that were to review with their reservation times, and leaves every other row alone |
| `Faucet.Faucet.constructor` | deploy/nu7-fork/faucet.py:65-90 | a start recovers the stored table, so it finds no claim in flight |
| `Faucet.Faucet.Reserve` | deploy/nu7-fork/faucet.py:166-193 | each refusal in order, and a new row exactly when none applies |
| `Faucet.Faucet.Take` | deploy/nu7-fork/faucet.py:211-216 | the oldest queued claim and nothing else becomes processing |
| `Faucet.Faucet.Finish` | deploy/nu7-fork/faucet.py:223-245 | the outcome of a send is recorded on its own row only |
| `Faucet.EveryRunQuotas` | deploy/nu7-fork/faucet.py:166-193 | in every interleaving of requests, workers, crashes and restarts the quotas hold |
| `Faucet.EveryRun` | deploy/nu7-fork/faucet.py:211-245 | in every interleaving claims start in reservation order, the sender runs at most once per claim, and sent means exit 0 with the recorded transaction id |
| `Faucet.NeverRequeued` | deploy/nu7-fork/faucet.py:211-245 | a claim that left the queue never returns to it, and a settled claim never changes |
| `Faucet.EveryDayWithinCap` | deploy/nu7-fork/faucet.py:166-193 | in every run each UTC day's payouts stay within the cap when no request's day start is after its clock read |
| `RateLimiter.EvictedIsLive` | deploy/gateway/broadcast.py:68-87 | eviction keeps exactly the clients with a live call and forgets no live call |
| `RateLimiter.AdmitsExactly` | deploy/gateway/broadcast.py:68-87 | the complete log admits a call exactly when its client has fewer calls in the window than the limit, and has one there or finds fewer live clients than the client limit |
| `RateLimiter.Limiter.Allow` | deploy/gateway/broadcast.py:68-87 | the pruned, evicting table answers exactly as the complete log would and stays within its size |
| `RateLimiter.Serve` | deploy/gateway/broadcast.py:68-87 | over any run of calls at nondecreasing times every answer is the one the complete log gives |
| `Inflight.InflightLimiter.Acquire` | deploy/gateway/broadcast.py:112-121 | which cap refuses, and that a refusal takes no slot |
| `Inflight.InflightLimiter.Release` | deploy/gateway/broadcast.py:123-130 | one slot of the client is given back, and an empty entry is removed |
| `Inflight.EveryRun` | deploy/gateway/broadcast.py:451-472 | in every interleaving of handlers the total equals the sum of the entries and the number of handlers holding slots, entries lie between one and the client cap, and the total cap holds |
| `Inflight.AdmittedExactly` | deploy/gateway/broadcast.py:112-121 | in every interleaving a handler is admitted exactly when fewer handlers than each cap are inside, in all and of its own client |
| `Inflight.LeaveKeeps` | deploy/gateway/broadcast.py:123-130 | a release finds its own slot, so the clamp at zero never takes effect, and only that handler leaves |
| `Inflight.NoLeak` | deploy/gateway/broadcast.py:469-472 | when every handler has finished nothing is held |
| `Monitor.UpdateProgress` | deploy/continuous-sync/alert-monitor.py:267-296 | every host in the sample gets the record its own history calls for, and the others are left alone |
| `Monitor.StallJustified` | deploy/continuous-sync/alert-monitor.py:441-480 | SYNC STALLED is raised if and only if every sample for at least the stall time showed a healthy, exact local node and a healthy, exact peer ahead of it whose latest progress was an advance at a sample later than every sample of local progress |
| `Monitor.NoProgressWhileShown` | deploy/continuous-sync/alert-monitor.py:441-480 | no sample of such a stretch brought local progress |
| `Monitor.TimesSeen` | deploy/continuous-sync/alert-monitor.py:267-296 | the stored progress time is that of the latest sample that brought progress, and an advance time is stored exactly when that sample was an advance |
| `Monitor.HeightSeen` | deploy/continuous-sync/alert-monitor.py:267-296 | the stored height is that of the latest sample with an exact one |
| `Monitor.RunSeen` | deploy/continuous-sync/alert-monitor.py:267-296 | the stored run is the latest one named |
| `Monitor.ResetSeen` | deploy/continuous-sync/alert-monitor.py:267-296 | a reset is pending if and only if the run changed since the latest exact sample |
| `Monitor.ProgressOnSamples` | deploy/continuous-sync/alert-monitor.py:267-296 | on the samples alone: progress is a first exact height, an exact height of a new run, or one above the latest exact height, and an advance is the last of these within one run |
| `Monitor.DownJustified` | deploy/continuous-sync/alert-monitor.py:394-407 | NODE DOWN is confirmed if and only if the last required samples were all explicitly inactive, so an unknown sample breaks the streak |
| `Monitor.Watch.RunOnce` | deploy/continuous-sync/alert-monitor.py:352-512 | after every sample the stored counters and both alert records are those the whole history of samples calls for, and what is posted is what the turn of the latest sample calls for |
| `Monitor.StandingStall` | deploy/continuous-sync/alert-monitor.py:441-512 | a SYNC STALLED alert stands if and only if it goes back to a sample at which the samples showed a stall for long enough, with no take-over by the controller and no recovery delivered after local growth since |
| `Monitor.StallSignalMeans` | deploy/continuous-sync/alert-monitor.py:441-512 | what a sample says of SYNC STALLED, on the samples alone: the controller answers, a stall was shown long enough, the local node grew over its latest exact height, or nothing |
| `Monitor.DownSignalMeans` | deploy/continuous-sync/alert-monitor.py:394-437 | what a sample says of NODE DOWN, on the samples alone |
| `Monitor.StandingDown` | deploy/continuous-sync/alert-monitor.py:394-437 | a NODE DOWN alert stands if and only if it goes back to a sample at which the node was seen down for as many samples as required, with no take-over by the controller and no recovery delivered with the service active since |
| `Alerts.MaybeAlert` | deploy/continuous-sync/alert-monitor.py:299-332 | a condition that holds is posted when the alert is not active or was last posted a throttle ago, an ended one until its recovery is delivered; and the alert record that leaves |
| `Alerts.Retire` | deploy/continuous-sync/alert-monitor.py:335-349 | a retired alert is neither active nor owed a recovery, keeps its last post time, and an idle one is left alone |
| `Alerts.RecoveryOwed` | deploy/continuous-sync/alert-monitor.py:299-512 | after a sample that ends the condition, an undelivered recovery is posted again at every later sample that says anything, until delivered, the condition returns or the controller takes over |
| `Alerts.AlertExactly` | deploy/continuous-sync/alert-monitor.py:299-512 | over every run an alert stands if and only if its condition was last raised at a sample since which the controller has not taken over and no recovery was delivered at or after an end of the condition |
| `Alerts.PostsExactly` | deploy/continuous-sync/alert-monitor.py:299-512 | what each sample of a run posts: a raised condition always when no alert stands and else a throttle after the latest delivered post, a recovery at each sample that ends a standing condition and at each calm one after it, and nothing else |
| `Alerts.LastSentSeen` | deploy/continuous-sync/alert-monitor.py:299-332 | the stored time is that of the latest delivered post |
| `Alerts.PostsThrottled` | deploy/continuous-sync/alert-monitor.py:299-332 | with samples free to lose their save after posting, two delivered posts of an alert are a throttle apart when the earlier was saved and nothing saved between them delivered a post or retired the alert |
| `Alerts.LostPostRepeats` | deploy/continuous-sync/alert-monitor.py:299-332 | a post whose save was lost is repeated by the next sample that says the same, however soon |
| `Grid.UnpackPack` | scripts/pack-assets-crate.py:57 | little-endian words are read back as written |
| `Grid.WalkAccepts` | scripts/pack-assets-crate.py:76-92 | the walk accepts every encoding of strictly rising entries and ends at its last height |
| `Grid.WalkSound` | scripts/pack-assets-crate.py:76-92 | whatever the walk accepts is such an encoding |
| `Grid.DecodingUnique` | scripts/pack-assets-crate.py:76-92 | no two entry lists of one length have the same encoding |
| `Grid.MinimumLength` | scripts/pack-assets-crate.py:71-74 | the early length check refuses nothing the walk would accept |
| `Grid.ShortReadExactly` | scripts/pack-assets-crate.py:78-79 | the unguarded height read runs out of bytes if and only if valid entries, fewer than declared, leave under four bytes |
| `Grid.SkipPools` | scripts/pack-assets-crate.py:84-90 | the inner loop ends behind the entry's blobs, or refuses exactly when one is truncated |
| `Grid.WalkPayload` | scripts/pack-assets-crate.py:76-92 | the nested loop is the walk on the bytes |
| `Grid.ParseGrid` | scripts/pack-assets-crate.py:48-99 | every refusal in order, and what is returned |
| `Grid.RefusalsExactly` | scripts/pack-assets-crate.py:48-74 | what each check before the walk refuses, in order |
| `Grid.AcceptsExactlyGrids` | scripts/pack-assets-crate.py:48-99 | parsing succeeds if and only if the bytes are a grid: header, digest, and the encoding of rising entries below the checkpoint |
| `Grid.AcceptedIsGrid` | scripts/pack-assets-crate.py:48-99 | the checkpoint, count and payload returned are those of the grid |
| `Grid.BuildGrid` | scripts/pack-assets-crate.py:203-225 | the appended bytes are the encoding of one bare entry per height under a valid header and digest |
| `Grid.BuildRoundTrip` | scripts/pack-assets-crate.py:203-225 | a built grid parses back to its checkpoint, count and payload if and only if its heights are few enough and rise strictly below the checkpoint |
| `Changelog.ParseCategoryBody` | scripts/changelog.py:154-194 | the line loop computes the categories, or the first error, of the recursive definition, and so what the outline of the body calls for |
| `Changelog.ParseReads` | scripts/changelog.py:154-194 | a body parses exactly when every heading is of a standard category and none comes twice, only blank lines stand before the first, and every section has text; it parses to the stripped lines of each section under its name |
| `Changelog.StripExactly` | scripts/changelog.py:162-170 | stripping takes the blank lines at both ends and the blanks at both ends of what is left, and nothing else |
| `Changelog.ScanWellFormed` | scripts/changelog.py:154-194 | every parse yields standard categories with stripped, nonempty bodies |
| `Changelog.ParseRenderExactly` | scripts/changelog.py:234-239 | rendered categories parse back to themselves if and only if no body has a heading-like line |
| `Changelog.HeadingVersion` | scripts/changelog.py:29-33 | a release heading is read back as its version |
| `Changelog.HeadingExactly` | scripts/changelog.py:29-33 | a line names a version if and only if it is the release heading of that version and some date |
| `Changelog.VersionParts` | scripts/changelog.py:29-34 | a version is three dotted numbers and, after a dash, at least one letter, digit, dot or dash |
| `Changelog.PartsVersion` | scripts/changelog.py:29-34 | whatever has that form is a version |
| `Release.SplitRendered` | scripts/changelog.py:133-151 | a rendered changelog splits into its prefix, nothing unreleased, and its sections |
| `Sections.PromoteCandidates` | scripts/changelog.py:201-231 | the cursor loop keeps exactly the lines outside the candidates' sections, in order, and parses exactly the candidates' bodies, failing on the first that does not parse |
| `Sections.KeptExactly` | scripts/changelog.py:201-231 | promotion leaves no candidate heading, and changes the text or takes a body exactly when there is one |
| `Release.MergeEntries` | scripts/changelog.py:242-252 | each category is its current body followed by its additions |
| `Release.MergeAll` | scripts/changelog.py:225-252 | merging in two stages is merging all the sources in order |
| `Release.MergedWellFormed` | scripts/changelog.py:242-252 | a merge of parsed sources is what a parse could have yielded |
| `Release.ReleasePlan` | scripts/changelog.py:280-355 | every error in order, and the text written |
| `Release.PlanExactly` | scripts/changelog.py:280-355 | a plan succeeds exactly when tag and date are valid, the changelog splits and can be read, a release heads what remains, and either there is something to release and that release is another one, or there is nothing and it is this one or may be retargeted |
| `Release.MarkerExactly` | scripts/changelog.py:208-216 | a candidate of a stable version is headed by that version, "-rc" and at least one character more |
| `Release.ReleasedInOrder` | scripts/changelog.py:309-322 | within a category: candidates oldest first, then Unreleased, then fragments |
| `Release.ReleaseConserves` | scripts/changelog.py:280-355 | read back, the written changelog has the same prefix, nothing unreleased, a first section of the requested version that parses to exactly the released entries, and below it the remaining sections line for line |
| `Release.RetargetConserves` | scripts/changelog.py:280-355 | a plan that writes no new section had nothing to release: prefix and sections are kept line for line but for the first heading, which names the requested version and changes only when retargeting is asked for and the old version has no tag |
| `Release.ReplanExactly` | scripts/changelog.py:280-355 | planning the written text again writes nothing if and only if the new section holds no heading of its own candidates; pre-releases and plans that add no section always settle |
| `Release.PlainSettles` | scripts/changelog.py:280-355 | with entries free of heading-like lines the second plan always writes nothing |
| `Release.HiddenCandidate` | scripts/changelog.py:280-355 | for every stable version a changelog whose second plan differs |
| `Release.SecondPlanDiffers` | scripts/changelog.py:280-355 | such a changelog exists |

## Left out

- SSH, systemctl, git, HTTP serving, Slack posting, HTML and JSON: foreign effects, present only as the answer a state change depends on.
- `validate_config`, `consolidated_rules`, `dispatch`, `envelope` and the light-wallet probes of the selector: field checks and formatting around the modelled steps.
- Fleets of other sizes: evidence is compared for three validators, the number the configuration check demands.
- Header fields that change for one block, such as confirmations: a header is the function of its hash.
- Chains that move while one quorum evaluation reads them: the reads of one evaluation come from fixed answers per source and height.
- `throttle_attempt` of the faucet: the same pruned per-client log as `RateLimiter`, without its client cap.
- Fractions of a second: clocks are integers.
- The counter resets, renamed fleets and repeated run ids that `collect_statuses` refuses: they are refused in the model, and the tiling theorem is about runs without them.
- The legacy digest inside `cmd_audit`: its runs are modelled for one configured node, not tied into the incident state of the same audit.
- `load_audit_state` discarding malformed records, and the order of lines inside one posted message.
- EveryTrace: holds for audits whose state was saved, because a notice delivered just before a crash that loses the save is not an audit of the model.
- Failed writes of `samples.jsonl` and `run.json` inside the wait loop.
- Alert texts of the monitor, and which peers the evidence names.
- Trace archiving, worktrees and cached binaries in `cleanup_retention`: deletions without a bound to keep. Run names and start stamps are ranks in their order.
- `parse_fragment`: fragments enter the release plan as already parsed categories.
- Text at the level of characters: a changelog is the sequence of its lines, blanks are space, tab and carriage return, other line separators do not occur, and trailing line breaks of the kept sections are normalised as rendering does.
- Grid payloads over 4 GiB per blob cannot occur, because a length is a 32-bit word.
- The Rust node crates.
