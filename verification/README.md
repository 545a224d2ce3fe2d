# Verified models of AgentQueue's core logic

Dafny models of the parts of AgentQueue where a mistake loses work or leaks a credential, with
proofs of what those parts promise. `dafny verify dfyconfig.toml` checks all of them.

| file | models |
|---|---|
| `IntegrationBatches.dfy` | the row triggers over integration batches, members, repair operations and leases, as one state machine over four tables |
| `IntegrationRecords.dfy` | the single-row guards: publications, resolutions, cleanup items, ref mutations |
| `ConfigSecrets.dfy` | redaction of credentials in a config tree, and the restorer that undoes it |
| `BookkeepingEvidence.dfy` | the in-place merge of evidence shards |
| `AgentCron.dfy` | recurrence arithmetic: next tick, 48-hour scan, catch-up count |
| `StartLock.dfy` | the start lock directory, and starts, cleaners and reboots around it |
| `TaskRecordMigration.dfy` | copy, verify, remove, with copy faults and crashes |
| `MarkerSplice.dfy` | generated blocks between markers; writing and checking the command pages |
| `ObjectLoop.dfy` | the object-loop step graph and every run of it |
| `ConfigOverlay.dfy` | the deep merge of configuration layers |
| `ConfigWatcher.dfy` | hot reload |
| `WaitPolicy.dfy` | validation and project resolution of the wait policy |
| `ClaimTiming.dfy` | phase accounting of one claim |
| `Options.dfy`, `Strings.dfy` | shared helpers |

The models follow the code where it and its documentation differ. The differences found, each
stated as a lemma:

- A batch row that is deleted and inserted again re-opens a sealed batch to members
  (`DeletedBatchThaws`, `StaysFrozenIff`); no trigger guards the deletion of a batch.
- A resolution that is `accepted` can still become `rejected`; a rejected one is final
  (`AcceptanceIsNotFinal`, `RejectionIsFinal`).
- The comment that fixed patterns match within two days even across DST holds with at most one
  offset change in the scanned window (`ScanFindsTick`), and in general exactly when local time
  passes every minute of the day in that window (`ScanServesAllIff`). `TwoChangesCanRaise` only shows
  that the bound of one change is sharp: its zone is artificial and stands for no real one.
- Redaction replaces the password of the leftmost DSN only. A literal password in a later DSN of the
  same string stays exactly when the string as a whole is no credential
  (`RedactionLeavesPasswordIff`, with an example in `SecondPasswordStays`).
- Catch-up by `due_count` steps equals one call of `next_fire` exactly when the seven-day cap hides
  no tick (`CatchUpEqualsStepping`).
- A live start's lock can be taken by a cleaner that judged some earlier lock abandoned. In any run the
  first such loss is exactly the first release, on a lock that a live start holds, by a cleaner that
  saw no owner or saw the PID recorded there now, with something to remove (`FirstTheftIff`). Three
  runs show how that comes about: a cleaner that saw no owner (`BlindCleanerTakesLock`), a PID that a
  new start got after a reboot while a cleaner remembered it (`PidFromAnEarlierBoot`), a start that
  outlasts the maximum age (`LateStartLosesLock`). Ruling out these three is what the safety theorem
  assumes.
- A start whose owner record was not written does not remove its own lock (`OwnReleaseNeedsRecord`).
- A copy cut short leaves a destination file that blocks its record for good (`ClashesAfterIff`,
  `ClashIsForever`).
- A generated block that contains the closing marker in its body is not a fixpoint: the page grows
  with every run (`FixpointIffBlock`, `WrapIsBlock`).
- A null in an overlay removes a key only under mappings that the base has; elsewhere it is copied
  (`NestedNullSurvives`, `MergeTwiceIff`). Grouping of layers can matter (`GroupingMatters`,
  `MergeRegroupsIff`).
- With equal name and start, leaving a phase can take out the other entry. After any interleaving the
  current phase is wrong exactly when the last interval whose entry equals an open one is of another
  phase than the last open interval (`ReportedPhaseIs`; an example in `EqualEntriesMisreport`). The
  totals are right all the same.

Time zones are functions from instants to offsets; instants, deadlines and durations are reals. Key
names and token shapes of credentials, process probes, boot identity, file faults, the outcome of
loading a file and the blocks the command registry yields are parameters.

## Model

| member | source | states |
|---|---|---|
| IntegrationBatches.StepKeepsEmptyBatchesBare | migrations/integration_guards.py:22-165 | one accepted or rejected write to any of the four tables keeps every 'empty' batch without members, repair operations and leases |
| IntegrationBatches.EmptyBatchesStayBare | migrations/integration_guards.py:485-526 | so does every sequence of writes, whichever table is written last |
| IntegrationBatches.StepFreezes | migrations/integration_guards.py:158-161 | an update that leaves 'sealing', and every write after it, leaves the ten identity columns and the member set as they are |
| IntegrationBatches.SealedBatchIsFrozen | migrations/integration_guards.py:485-514 | along every run a batch past 'sealing' never returns to it, and its identity and members are those it had just before it left |
| IntegrationBatches.DeletedBatchThaws | migrations/integration_guards.py:485-514 | the kept row is a needed assumption: delete and insert re-open a sealed batch |
| IntegrationBatches.StaysFrozenIff | migrations/integration_guards.py:485-514 | one write leaves a sealed batch frozen in its place exactly when it is rejected or keeps the row under its key |
| IntegrationBatches.EmptyIsDecidedAtInsert | src/database/tables.py:3907-3911 | identity trigger and table constraint together: a batch row is 'empty' for its whole life or never |
| IntegrationBatches.StepKeepsEmptiness | migrations/integration_guards.py:158-161 | the same for one write |
| IntegrationBatches.RevisionNeverFalls | migrations/integration_guards.py:52-59 | the revision of a batch that keeps its key never falls along a run |
| IntegrationBatches.FenceNeverFalls | migrations/integration_guards.py:70-77 | nor does the fence of a project lease |
| IntegrationBatches.StageNeverFalls | migrations/integration_guards.py:116-124 | nor the stage of a repair operation |
| IntegrationBatches.BatchInsertTakesEffectIff | src/database/tables.py:3907-3911 | a batch row is inserted exactly under a free key, with both late identity columns if and only if it is not 'empty', and as 'empty' only while nothing refers to it; it is deleted freely |
| IntegrationBatches.BatchUpdateTakesEffectIff | migrations/integration_guards.py:158-161 | an update of a batch takes effect exactly when its key is free or kept, the revision does not fall, the identity stays or both rows are 'sealing', 'sealing' is not re-entered, and the new row may stand under its key; every other lifecycle change goes through |
| IntegrationBatches.MemberWritesTakeEffectIff | migrations/integration_guards.py:22-41 | insert, update and delete of a member take effect exactly while every batch it belongs to, before and after, is 'sealing', under a free key |
| IntegrationBatches.RepairWritesTakeEffectIff | migrations/integration_guards.py:162-165 | a repair operation takes effect exactly for a target that is null or not 'empty', a stage that does not fall, and a free key |
| IntegrationBatches.LeaseWritesTakeEffectIff | migrations/integration_guards.py:162-165 | a lease likewise, with a fence that does not fall |
| IntegrationBatches.ReachableIff | migrations/integration_guards.py:158-161 | what any number of updates can make of a batch: exactly the rows with no lower revision, the same emptiness and, once past 'sealing', the same identity and no return to it |
| IntegrationBatches.IntegrationStore.MemberIsMutable | migrations/integration_guards.py:22-41 | raises exactly when the old or the new batch of a member is not 'sealing' |
| IntegrationBatches.IntegrationStore.BatchIdentityIsImmutable | migrations/integration_guards.py:158-161 | raises exactly on a frozen column changed, a return to 'sealing', or an 'empty' batch that something refers to |
| IntegrationBatches.IntegrationStore.EmptyBatchTargetRejected | migrations/integration_guards.py:162-165 | raises exactly when the target is an 'empty' batch; a null target passes |
| IntegrationBatches.IntegrationStore.Execute | migrations/integration_guards.py:485-526 | runs the triggers of the written table and then changes that one row or nothing, as the laws above state |
| IntegrationRecords.PublicationRow.Update | migrations/integration_guards.py:166-188 | accepts exactly the updates that keep the identity, keep the PR once published and move the state by at most one rank |
| IntegrationRecords.PublicationOnlyAdvances | migrations/integration_guards.py:166-188 | along every run ranks never fall and rise by at most one per update, identity is fixed, the PR is fixed once published |
| IntegrationRecords.PublishedThroughEveryState | migrations/integration_guards.py:180-186 | a published row passed through every state in between |
| IntegrationRecords.PublicationUpdateIff | migrations/integration_guards.py:166-188 | state by state, which updates of a publication are accepted: the same or the next state, with a free hand in the pull request until it is published |
| IntegrationRecords.PublicationReachableIff | migrations/integration_guards.py:180-186 | what any number of updates can make of a publication: exactly anything at or past its state under its identity, and nothing else once published |
| IntegrationRecords.ResolutionRow.Update | migrations/integration_guards.py:189-229 | accepts exactly what the trigger and the table constraints allow |
| IntegrationRecords.ResolutionOnlyAdvances | migrations/integration_guards.py:189-229 | along every run ranks climb one at a time, identity is fixed, the handoff pair and each evidence column are written at most once and no handoff is half set |
| IntegrationRecords.RejectionIsFinal | src/database/tables.py:4128-4160 | with the table constraints 'rejected' is terminal |
| IntegrationRecords.AcceptanceIsNotFinal | migrations/integration_guards.py:224-227 | 'accepted' is not: it can still become 'rejected' |
| IntegrationRecords.ResolutionUpdateIff | src/database/tables.py:4128-4160 | trigger and table constraints together, state by state: a push brings its evidence, a rejection its own, after a push or even after an acceptance |
| IntegrationRecords.ResolutionReachableIff | migrations/integration_guards.py:189-229 | what any number of updates can make of a resolution: exactly what keeps identity, evidence and handoff and does not go back |
| IntegrationRecords.CleanupRow.Update | migrations/integration_guards.py:294-325 | accepts exactly what both cleanup triggers allow |
| IntegrationRecords.IrreversibleIsFixed | migrations/integration_guards.py:310-325 | once set, the irreversible nonce and its mark never change; a nonce set alone never gains a mark |
| IntegrationRecords.MarkWasClaimed | migrations/integration_guards.py:310-325 | a marked row has an earlier update that set nonce and mark together under the execution nonce held just before |
| IntegrationRecords.MarkHasOneClaim | migrations/integration_guards.py:593-614 | it has exactly one such update, and both are fixed from it on |
| IntegrationRecords.CleanupUpdateIff | migrations/integration_guards.py:294-325 | both cleanup triggers together: a terminal item stays; any other keeps identity and nonce, and without a nonce takes a bare one or nonce and mark under its execution nonce |
| IntegrationRecords.CleanupReachableIff | migrations/integration_guards.py:310-325 | what any number of updates can make of an item: anything of its identity that keeps a nonce it has, whatever the execution nonce was |
| IntegrationRecords.RefMutationRow.Update | migrations/integration_guards.py:230-275 | accepts exactly what both mutation triggers allow |
| IntegrationRecords.MutationOutcomeIsFinal | migrations/integration_guards.py:230-275 | an applied mutation keeps its state, remote SHA, nonce and expiry along every run, a superseded root-main claim is frozen, the prewrite mark is written once |
| IntegrationRecords.MutationUpdateIff | migrations/integration_guards.py:230-275 | state by state, which updates of a mutation are accepted |
| IntegrationRecords.MutationReachableIff | migrations/integration_guards.py:230-275 | any number of updates can make of a mutation just what one can |
| ConfigSecrets.RunEndIs | src/config_secrets.py:161-164 | the greedy end of a run of class characters is the only end that a non-member or the end of the text can follow |
| ConfigSecrets.MatchAtIsComplete | src/config_secrets.py:161-164 | the scanner finds the credential match at a position whenever one exists there |
| ConfigSecrets.FirstMatchIsLeftmost | src/config_secrets.py:161-164 | search returns the leftmost match |
| ConfigSecrets.Redact | src/config_secrets.py:131-148 | one value, with the log of replaced paths in document order |
| ConfigSecrets.RedactEntries | src/config_secrets.py:132-138 | the loop over a mapping: keys stay, every child is redacted under its own key |
| ConfigSecrets.RedactItems | src/config_secrets.py:139-145 | the items of a list inherit the parent key |
| ConfigSecrets.RedactString | src/config_secrets.py:151-169 | a credential becomes the placeholder, a DSN with a written-out password keeps all else, anything else stays; the path is logged exactly when the string holds such a literal |
| ConfigSecrets.RedactConfig | src/config_secrets.py:119-128 | the same for every string of the document with the key it hangs from, at the same place in the same tree; reported are the paths of exactly the strings that hold a literal, in document order |
| ConfigSecrets.Restore | src/config_secrets.py:213-234 | one value against what is stored at its path, logging what could not be restored |
| ConfigSecrets.RestoreEntries | src/config_secrets.py:214-221 | the loop over a mapping: each key against the stored value of the same key |
| ConfigSecrets.RestoreItems | src/config_secrets.py:222-231 | list items against the stored item of the same index |
| ConfigSecrets.RestoreString | src/config_secrets.py:237-256 | a bare placeholder becomes the stored text, a placeholder password the stored password, anything else stays; the path is logged exactly when nothing stored answers |
| ConfigSecrets.RestoreSectionSecrets | src/config_secrets.py:177-200 | the same for every string of the section against what is stored at its place; unresolved are the paths of exactly the unanswered placeholders, in document order, and with nothing stored the section passes exactly when it has none |
| ConfigSecrets.SpliceKeepsLeftmost | src/config_secrets.py:164-167 | replacing the password of the leftmost match keeps that match the leftmost |
| ConfigSecrets.UrlRoundTrip | src/config_secrets.py:243-252 | restoring a redacted DSN against the original gives the original |
| ConfigSecrets.StrayIsUnanswered | src/config_secrets.py:254-256 | a placeholder in a text that redaction leaves alone is reported |
| ConfigSecrets.StringRoundTrip | src/config_secrets.py:151-169 | redact then restore is the identity on every string, and reports exactly the stray ones |
| ConfigSecrets.RestoreUndoesRedact | src/config_secrets.py:213-234 | restoring the redacted tree against the original gives the original, for every tree |
| ConfigSecrets.UnresolvedOnlyIfStray | src/config_secrets.py:177-200 | something is unresolved exactly when the original holds a stray placeholder |
| ConfigSecrets.NoPlaceholderNoStray | src/config_secrets.py:203-210 | a tree without placeholders has none |
| ConfigSecrets.RoundTrip | src/config_secrets.py:119-256 | both entry points in sequence: the original comes back, with nothing unresolved if it held no placeholder |
| ConfigSecrets.EditsAreKept | src/config_secrets.py:188-190 | every value without a placeholder passes through verbatim, whatever is stored |
| ConfigSecrets.RestoredUrlKeepsEdits | src/config_secrets.py:186-187 | a DSN with the placeholder gets exactly the stored password and keeps every other edit |
| ConfigSecrets.PassesThrough | src/config_secrets.py:197-198 | the short cut for a section without placeholders changes no result |
| ConfigSecrets.UnreportedIsUntouched | src/config_secrets.py:119-128 | redaction never changes a leaf without reporting a path |
| ConfigSecrets.SearchIsLeftmost | src/config_secrets.py:164-167 | search finds a DSN exactly when no other begins before it |
| ConfigSecrets.LeafIsHidden | src/config_secrets.py:151-169 | one string: a non-blank text under a secret key without environment reference, or with a token shape, becomes exactly the placeholder; else a written-out password of the leftmost DSN does; else nothing changes |
| ConfigSecrets.LeavesAreHidden | src/config_secrets.py:131-148 | so for every string of a tree with the key it hangs from, list items under the key of their list |
| ConfigSecrets.LiteralsAreReported | src/config_secrets.py:131-148 | reported are the paths of exactly those strings, in document order |
| ConfigSecrets.FrameIsKept | src/config_secrets.py:131-148 | keys, lengths and non-string values stay |
| ConfigSecrets.RedactionHidesLiterals | src/config_secrets.py:119-128 | all three for a whole document |
| ConfigSecrets.SiteIsRestored | src/config_secrets.py:237-256 | one string: what it is restored to, and that it is reported exactly when it has a placeholder that nothing stored answers |
| ConfigSecrets.SitesAreRestored | src/config_secrets.py:213-234 | so for every string of a section against what is stored at its place |
| ConfigSecrets.RefusalsAreReported | src/config_secrets.py:213-234 | unresolved are the paths of exactly the unanswered placeholders, in document order |
| ConfigSecrets.NothingStored | src/config_secrets.py:177-200 | with nothing stored, something is unresolved exactly when the section has a placeholder in it |
| ConfigSecrets.RestorationAnswersOrRefuses | src/config_secrets.py:177-200 | all of this for a whole section |
| ConfigSecrets.RefusedIffNothingAnswers | src/config_secrets.py:237-256 | a string with a placeholder stays and is reported exactly when the stored value is no string, or the bare placeholder meets an empty text, or another text has no placeholder as its leftmost password or the stored text no DSN |
| ConfigSecrets.PathIsInjective | src/config_secrets.py:135-136 | a reported path stands for one place, as long as no key name has a dot or a bracket in it |
| ConfigSecrets.PathOfListItem | src/config_secrets.py:122-124 | the documented notation of a list item below a key |
| ConfigSecrets.MatchesApart | src/config_secrets.py:164-167 | DSNs do not overlap: a match has the password of the leftmost one or begins after it |
| ConfigSecrets.RedactionLeavesPasswordIff | src/config_secrets.py:151-169 | a redacted string still holds a literal DSN password exactly when the whole text is no credential and a DSN after the first has one |
| ConfigSecrets.SecondPasswordStays | src/config_secrets.py:164-167 | an example: of two DSNs in one text the second keeps its password |
| BookkeepingEvidence.PlusAssociates | scripts/bookkeeping_sources.py:25-37 | combining what three shards say at a path does not depend on grouping |
| BookkeepingEvidence.PlusIsPairwise | scripts/bookkeeping_sources.py:25-37 | three facts clash exactly when two of them do |
| BookkeepingEvidence.MergedAt | scripts/bookkeeping_sources.py:25-37 | at every path the merge says the sum of what both sides say |
| BookkeepingEvidence.MergeableIffAgree | scripts/bookkeeping_sources.py:25-37 | a merge succeeds exactly when no path clashes |
| BookkeepingEvidence.LoadIsSum | scripts/bookkeeping_sources.py:40-50 | loading succeeds exactly when no path clashes in the sum of all shards, and the result says that sum |
| BookkeepingEvidence.LoadIgnoresOrder | scripts/bookkeeping_sources.py:40-50 | it succeeds in one order exactly when in every order, with equal results up to list order |
| BookkeepingEvidence.LoadsIffPairwiseMergeable | scripts/bookkeeping_sources.py:40-50 | it succeeds exactly when all pairs of shards are compatible |
| BookkeepingEvidence.LoadConservesEvidence | scripts/bookkeeping_sources.py:40-50 | every leaf and list item appears exactly as often as the shards gave it |
| BookkeepingEvidence.Dict.MergeKey | scripts/bookkeeping_sources.py:28-37 | one key of the incoming dictionary, in place: taken over, merged, extended or refused |
| BookkeepingEvidence.Dict.MergeSubDict | scripts/bookkeeping_sources.py:31-32 | two sub-dictionaries merge recursively into the target's own object |
| BookkeepingEvidence.Dict.ExtendList | scripts/bookkeeping_sources.py:33-35 | a list is extended in place |
| BookkeepingEvidence.Dict.Merge | scripts/bookkeeping_sources.py:25-37 | raises exactly when the two contents are not mergeable, else the target holds their merge and only objects of both |
| BookkeepingEvidence.LoadShards | scripts/bookkeeping_sources.py:40-50 | fails exactly on no file, a non-object or a conflict, else returns the load of all shards |
| AgentCron.RecurrenceAcceptsValid | src/agent_cron.py:22-55 | a recurrence is accepted exactly when its arguments spell it and nothing else, it is in range and the zone is known |
| AgentCron.ComputeNextFire | src/agent_cron.py:67-81 | the next tick of an interval in closed form, and the first minute of the next 48 hours that fires |
| AgentCron.ScanForTick | src/agent_cron.py:74-81 | the minute loop finds the first hit of the next 48 hours or raises |
| AgentCron.NextIntervalIsEarliest | src/agent_cron.py:69-71 | the closed form is the earliest interval tick strictly after the instant |
| AgentCron.NextHitIsEarliest | src/agent_cron.py:72-80 | the scan result is the earliest matching minute strictly after the instant |
| AgentCron.NextFireIsEarliest | src/agent_cron.py:67-81 | for every accepted recurrence next_fire is the earliest tick strictly after the instant |
| AgentCron.TargetMatches | src/agent_cron.py:58-64 | every accepted pattern matches at its target time of day |
| AgentCron.QuietDayHits | src/agent_cron.py:75-80 | a day without an offset change contains a matching minute |
| AgentCron.ScanFindsTick | src/agent_cron.py:75-81 | the scan finds a tick when the offset changes at most once in its 2880 minutes |
| AgentCron.NextFireNeverRaises | src/agent_cron.py:67-81 | so next_fire does not raise |
| AgentCron.ScanServesAllIff | src/agent_cron.py:75-81 | the scan serves every accepted pattern exactly when local time passes every minute of the day in the 2880 scanned ones |
| AgentCron.TwoChangesCanRaise | src/agent_cron.py:75-81 | the bound of one change is sharp: an artificial zone with two changes makes a valid pattern fail |
| AgentCron.FixedPatternIsDaily | src/agent_cron.py:58-64 | a fixed minute and hour fire exactly every 24 hours while the offset stands still |
| AgentCron.StepPatternRestartsHourly | src/agent_cron.py:58-63 | */N fires N minutes later, or at the full hour if that comes first |
| AgentCron.FiresAtNamedTimes | src/agent_cron.py:58-64 | a pattern fires at exactly those local times of day that its two fields name |
| AgentCron.PatternKinds | src/agent_cron.py:58-64 | kind by kind: every minute, the sixty minutes of one hour, one minute of every hour, the multiples of N in every hour or in one hour, one time of day |
| AgentCron.EveryMinuteFires | src/agent_cron.py:67-81 | "* *" fires at the very next minute, in any zone |
| AgentCron.MinutePatternIsHourly | src/agent_cron.py:67-81 | "M *" fires exactly every 60 minutes while the offset stands still |
| AgentCron.IntervalCatchUp | src/agent_cron.py:84-86 | due_count steps from a first interval tick reach the next tick after now |
| AgentCron.StepsCrossWindow | src/agent_cron.py:89-96 | as many steps as there are hits in a window lead to the first hit after it |
| AgentCron.CountHitsIsHitCount | src/agent_cron.py:93-96 | the sum counts the matching minutes from the first tick on |
| AgentCron.HorizonMinute | src/agent_cron.py:92 | the counted minutes end at now or at the seven-day cap |
| AgentCron.CronCatchUp | src/agent_cron.py:84-96 | due_count steps from a first cron tick reach the next tick after the horizon |
| AgentCron.NothingDueBefore | src/agent_cron.py:84-92 | before the first tick due_count is zero |
| AgentCron.CatchUpEqualsStepping | src/agent_cron.py:84-96 | and that is the next tick after now exactly when the cap hides none; always within seven days |
| StartLock.LockDir.Acquire | src/daemon_state.py:100-112 | takes the lock exactly when it is absent; the owner file may be whole, cut short or missing |
| StartLock.LockDir.ReadOwner | src/daemon_state.py:115-129 | the owner a file records: none if garbled, no boot if a bare number |
| StartLock.LockDir.Release | src/daemon_state.py:138-152 | removes the lock unless it names an owner who does not hold it or the directory stays |
| StartLock.LockDir.State | src/daemon_state.py:155-177 | absent, held or abandoned, by age, boot and probe |
| StartLock.OwnerlessIsAbandonedIff | src/daemon_state.py:161-163 | a lock without a readable owner is abandoned exactly when it is older than 1800 seconds, and held until then |
| StartLock.OwnedIsAbandonedIff | src/daemon_state.py:164-177 | a lock with an owner is abandoned exactly when it is older than four hours, was recorded in another known boot, or its process is gone or another user's |
| StartLock.ReleaseClearsIff | src/daemon_state.py:138-152 | a release without an owner or by the recorded one clears the lock, and leaves it ownerless and young if the directory stays; any other changes nothing |
| StartLock.HolderIsNotAbandoned | src/daemon_state.py:155-177 | a live start's recorded lock is never judged abandoned |
| StartLock.ReleaseSparesHolder | src/daemon_state.py:138-152 | a cleaner that saw an owner leaves a live start's lock alone |
| StartLock.CleanerTakesLockIffBlind | src/daemon_state.py:138-152 | while no start is overdue and no remembered PID is reused, a cleaner's release that can remove the directory takes a live start's lock exactly when the cleaner saw no owner |
| StartLock.StepKeepsHolders | src/daemon_state.py:100-177 | every step keeps one holder at most, with the lock on disk |
| StartLock.StepKeepsVerdicts | src/daemon_state.py:100-177 | every step keeps that no cleaner holds a verdict on a live holder |
| StartLock.InvAlong | src/daemon_state.py:100-177 | both hold in every state of every run |
| StartLock.AtMostOneHolder | src/daemon_state.py:100-112 | in every state of every run at most one live start holds the lock |
| StartLock.NobodyTakesALiveLock | src/daemon_state.py:138-152 | in no step of any run is a live start's lock removed or replaced by anyone else |
| StartLock.OwnReleaseNeedsRecord | src/daemon_state.py:146-147 | a start's own release works exactly when its record was written |
| StartLock.TakenIffRemovesSeen | src/daemon_state.py:138-152 | until a live lock was first taken, a step takes one exactly when it is a cleaner's release that saw no owner or the PID recorded now, with something it can remove |
| StartLock.StepWithoutTheft | src/daemon_state.py:100-177 | a step that takes no live lock keeps one holder at most, with its own record or none in the lock |
| StartLock.FirstTheftIff | src/daemon_state.py:100-177 | so in every run, without any assumption, the first step that takes a live start's lock is the first such release on a held lock |
| StartLock.DeadLockIsRecovered | src/cli/daemon.py:726-731 | read, judge, release, acquire takes over the lock of a dead or overdue owner |
| StartLock.EachAssumptionIsNeeded | src/daemon_state.py:138-177 | without any one of the three assumptions some run takes a live start's lock |
| StartLock.LateStartLosesLock | src/daemon_state.py:168-169 | a start older than the maximum age |
| StartLock.BlindCleanerTakesLock | src/daemon_state.py:145-147 | a cleaner that saw no owner |
| StartLock.PidFromAnEarlierBoot | src/daemon_state.py:166-167 | a PID reused across a reboot |
| TaskRecordMigration.DataDir.MigrateFile | scripts/migrate_task_records.py:83-148 | one file under any fault, as the laws below describe: skip, clash, copy fault, silent difference, early end, or move |
| TaskRecordMigration.DataDir.MigrateProject | scripts/migrate_task_records.py:56-150 | the loop over the files and its counts |
| TaskRecordMigration.DataDir.RunMigration | scripts/migrate_task_records.py:153-191 | projects in order up to an early end; a real run returns success exactly when every source is empty and every file stands at its destination with its bytes, a dry one exactly when no file clashes |
| TaskRecordMigration.OneFilePreserves | scripts/migrate_task_records.py:104-148 | one file, any fault: its bytes stay in source or destination, and nothing at the destination changes |
| TaskRecordMigration.RunPreserves | scripts/migrate_task_records.py:83-150 | the same for a run that may end anywhere |
| TaskRecordMigration.HistoryPreserves | scripts/migrate_task_records.py:56-150 | and for every sequence of runs with any faults |
| TaskRecordMigration.ClashesAfterIff | scripts/migrate_task_records.py:104-143 | a file clashes after its turn exactly when it did before, or a copy was cut short or arrived wrong and was not cleaned up |
| TaskRecordMigration.ClashIsForever | scripts/migrate_task_records.py:104-112 | a clash is never resolved by running again |
| TaskRecordMigration.EndsIff | scripts/migrate_task_records.py:56-150 | a run ends early exactly when the fault of one of its files ends it |
| TaskRecordMigration.CompletedRun | scripts/migrate_task_records.py:79-150 | with any copy faults, a run that reaches its end moves, drops or reports each file by how it stood before and how its copy went; the counts add up to the number of files and the errors are the files left in the source |
| TaskRecordMigration.NoErrorsIff | scripts/migrate_task_records.py:83-150 | it has no errors exactly when every file has moved with its bytes, and exactly when no file clashed and no copy raised or arrived wrong |
| TaskRecordMigration.SuccessIffNoClash | scripts/migrate_task_records.py:191 | a faultless run succeeds exactly when no file clashes |
| TaskRecordMigration.RunningAgain | scripts/migrate_task_records.py:10-14 | running again without faults moves and skips nothing and changes nothing |
| TaskRecordMigration.DryRunPredicts | scripts/migrate_task_records.py:113-148 | a dry run that reaches its end changes nothing and has the counts of a faultless run |
| MarkerSplice.PageMarkers | scripts/gen-command-docs.py:350-356 | where find sees the markers of a spliced page |
| MarkerSplice.EndIsPastStart | scripts/gen-command-docs.py:34-35 | an END from a START on begins after that START is over |
| MarkerSplice.MarkersDoNotOverlap | scripts/gen-command-docs.py:34-35 | the two markers never overlap, whichever begins first |
| MarkerSplice.SpliceParts | scripts/gen-command-docs.py:350-356 | everything before START and after END is kept and the block stands between them |
| MarkerSplice.SpliceIff | scripts/gen-command-docs.py:350-356 | splicing replaces what stands from the first START to the first END, and fails exactly when one is missing or they stand the wrong way round |
| MarkerSplice.LastSpliceWins | scripts/gen-command-docs.py:350-356 | splicing a block and then anything equals splicing the latter |
| MarkerSplice.FixpointIffBlock | scripts/gen-command-docs.py:350-356 | a page is a fixpoint of its block exactly when the closing END is the only one in the block |
| MarkerSplice.EarlyEndGrowsPage | scripts/gen-command-docs.py:350-356 | otherwise every splice makes it longer |
| MarkerSplice.WrapIsBlock | scripts/gen-command-docs.py:257-320 | a generated block is of that kind exactly when its body does not contain END |
| MarkerSplice.NewPageIsCurrent | scripts/gen-command-docs.py:359-363 | a page created from introduction, block and stub is a fixpoint |
| MarkerSplice.RenderedIsCurrent | scripts/gen-command-docs.py:359-414 | so is every rendered page, new or old |
| MarkerSplice.NewPageParts | scripts/gen-command-docs.py:359-414 | a new page has its introduction before its block, or its stub after it |
| MarkerSplice.Section.RenderAll | scripts/gen-command-docs.py:437-452 | all pages as they should be, or nothing when one lost its markers |
| MarkerSplice.Section.Write | scripts/gen-command-docs.py:480-489 | writes all and returns exactly the changed pages in order; a marker error writes nothing |
| MarkerSplice.Section.WriteAll | scripts/gen-command-docs.py:483-489 | its loop |
| MarkerSplice.Section.Check | scripts/gen-command-docs.py:462-477 | missing, stale and orphaned pages in order |
| MarkerSplice.CheckForetellsWrite | scripts/gen-command-docs.py:462-489 | check names exactly the pages that write would change |
| MarkerSplice.ProblemsAre | scripts/gen-command-docs.py:462-477 | check reports a page as missing, stale or orphaned exactly when it is, and a lost marker alone |
| MarkerSplice.WrittenIsDesired | scripts/gen-command-docs.py:437-489 | after a write what is desired is what stands there |
| MarkerSplice.CheckAfterWrite | scripts/gen-command-docs.py:462-489 | right after a write, check finds nothing but orphans and writing again changes nothing |
| MarkerSplice.WriteKeepsHandwriting | scripts/gen-command-docs.py:10-11 | the hand-written text around every existing block is preserved |
| MarkerSplice.ListIndex | scripts/gen-command-docs.py:387-411 | grouping by family and listing group by group, heading, table head and one row per command, with no section for an empty family |
| MarkerSplice.EveryCommandIsListedOnce | scripts/gen-command-docs.py:37-38 | every command has as many rows as registrations; a family has one heading if it has commands and none otherwise |
| ObjectLoop.SidIsInjective | scripts/rebuild-reviewed-playbook-artifacts.py:439-440 | different steps have different keys |
| ObjectLoop.RuleNamesAreSafe | scripts/rebuild-reviewed-playbook-artifacts.py:434-440 | the five rule names are distinct and free of the separator |
| ObjectLoop.KeysAreDistinct | scripts/rebuild-reviewed-playbook-artifacts.py:434-440 | no two steps of the artifact share a key |
| ObjectLoop.Body.AddRule | scripts/rebuild-reviewed-playbook-artifacts.py:439-546 | one turn of the loop fills in the transitions of all nineteen steps of a rule and touches no other |
| ObjectLoop.Body.Build | scripts/rebuild-reviewed-playbook-artifacts.py:411-547 | the five rules with their entries, and exactly the transitions of their steps |
| ObjectLoop.EveryStepDescends | scripts/rebuild-reviewed-playbook-artifacts.py:434-546 | (phase, items left, step rank, attempts left) falls at every step of every run |
| ObjectLoop.RunIsBounded | scripts/rebuild-reviewed-playbook-artifacts.py:434-546 | so the number of steps is bounded from any state |
| ObjectLoop.NeverStuck | scripts/rebuild-reviewed-playbook-artifacts.py:434-546 | a run that is not over can take a step |
| ObjectLoop.EveryRunEnds | scripts/rebuild-reviewed-playbook-artifacts.py:434-546 | every run of a rule ends, as completed or failed, within 3566 steps |
| ObjectLoop.CompletedServesAll | scripts/rebuild-reviewed-playbook-artifacts.py:466-470 | a run that completes has entered and finished each of the two loops once, in order, and has served every item they found |
| ObjectLoop.StopsAreEarned | scripts/rebuild-reviewed-playbook-artifacts.py:495-544 | in every run each stop step is entered exactly by its own decision case or refusal: a refused adoption for the adoption stop, a refused score that wanted to continue for the score stop |
| ObjectLoop.WorkIsEarned | scripts/rebuild-reviewed-playbook-artifacts.py:495-537 | the steps that check, adopt and score an object are entered exactly by their cases, or when the step before them is done or refused |
| ObjectLoop.NextIsEarned | scripts/rebuild-reviewed-playbook-artifacts.py:490-544 | by which events an object is reconciled, the next one is chosen and the loop is returned to |
| ObjectLoop.StartIsEarned | scripts/rebuild-reviewed-playbook-artifacts.py:474-489 | likewise for the steps that start approved proposals |
| ObjectLoop.FailureIsEarned | scripts/rebuild-reviewed-playbook-artifacts.py:454-470 | a run fails exactly by a failed foreach, a command out of attempts, a refusal of another command, or a refused score that did not want to continue |
| ObjectLoop.NoDanglingTarget | scripts/rebuild-reviewed-playbook-artifacts.py:448-470 | every target is a step of the same rule |
| ObjectLoop.EveryStepIsReachable | scripts/rebuild-reviewed-playbook-artifacts.py:434-546 | every step can be reached from the entry |
| ConfigOverlay.DeepMerge | src/config.py:4784-4804 | computes the specified merge, key by key in any order |
| ConfigOverlay.MergeTwiceIff | src/config.py:4796-4804 | an overlay can be applied again without effect exactly when none of its nulls survived |
| ConfigOverlay.SelfMergeIffNullFree | src/config.py:4796-4804 | a mapping laid over itself is itself exactly when it holds no null |
| ConfigOverlay.NullFreeMergeIsIdempotent | src/config.py:4784-4804 | a null-free overlay is idempotent |
| ConfigOverlay.NestedNullSurvives | src/config.py:4794-4803 | a null under a key the base lacks is copied, not removed |
| ConfigOverlay.MergeDropsBaseIff | src/config.py:4796-4804 | an overlay leaves nothing of the base exactly when it decides every key of it |
| ConfigOverlay.MergeRegroupsIff | src/config.py:5095-5120 | merging three layers is associative exactly under the stated condition, for all layers |
| ConfigOverlay.MergeIsAssociative | src/config.py:5095-5120 | in particular when the first two agree on what is a mapping and the last is null-free |
| ConfigOverlay.GroupingMatters | src/config.py:5095-5120 | a scalar between two mappings breaks it |
| ConfigOverlay.LastLayerWins | src/config.py:4787-4789 | a leaf of the overlay is what the merge has at its path |
| ConfigOverlay.BaseShowsThrough | src/config.py:4788-4789 | where the overlay is silent the base shows through |
| ConfigOverlay.NullRemoves | src/config.py:4794-4799 | a null that reaches the base removes its path |
| ConfigOverlay.ThreeLayers | src/config.py:5095-5120 | a leaf of the profile wins, else where the profile is silent a leaf of the overlay, else where both are silent the base |
| ConfigOverlay.LoadLayers | src/config.py:5085-5120 | the loaded configuration shows a reader the profile, then the overlay, then the file; a missing layer changes nothing |
| ConfigWatcher.DiffConfigs | src/config.py:4598-4614 | exactly the sections that differ |
| ConfigWatcher.ConfigWatcher.ApplySections | src/config.py:4713-4717 | sets the changed hot sections in place and no others |
| ConfigWatcher.ConfigWatcher.Reload | src/config.py:4685-4752 | the new configuration, the report and the events; a file that does not load changes nothing |
| ConfigWatcher.ConfigWatcher.CheckForChanges | src/config.py:4674-4683 | a changed file is looked at once |
| ConfigWatcher.ReloadBySection | src/config.py:4698-4717 | a section is reported exactly when it differs; it takes effect if it is hot and asks for a restart if it is not |
| ConfigWatcher.EventsAre | src/config.py:4718-4745 | a reload is announced exactly when a hot section differs, with both configurations, and then a restart exactly when another one does |
| ConfigWatcher.CurrentIsStartupWithLastFile | src/config.py:4685-4752 | after any history hot sections are those of the last loaded file and all others those of the startup |
| ConfigWatcher.ReportIgnoresHistory | src/config.py:4700-4711 | the restart set depends only on startup and file; only what differs from the last file is applied |
| ConfigWatcher.SameFileAppliesNothing | src/config.py:4700-4703 | reloading the same file applies nothing and emits no reload |
| ConfigWatcher.RestartIffNotInForce | src/config.py:4705-4711 | a restart is asked for exactly while the running configuration is not what the file says |
| WaitPolicy.ValidateKind | src/config_wait_policy.py:23-38 | exactly the errors of one kind |
| WaitPolicy.ValidateSettings | src/config_wait_policy.py:184-238 | exactly the errors of the fields and kinds |
| WaitPolicy.ValidateProject | src/config_wait_policy.py:151-158 | exactly the errors of one project |
| WaitPolicy.ValidateMetrics | src/config_wait_policy.py:88-104 | exactly the errors of the metrics section |
| WaitPolicy.Validate | src/config_wait_policy.py:138-159 | exactly the errors of the whole policy |
| WaitPolicy.SettingsOkIffNoError | src/config_wait_policy.py:184-238 | no error is reported exactly when every field and kind is in range |
| WaitPolicy.AcceptedFields | src/config_wait_policy.py:196-221 | field by field, the values in range |
| WaitPolicy.DefaultsValidate | src/config_wait_policy.py:106-131 | the default policy is valid |
| WaitPolicy.WaitPolicyConfig.OverrideKinds | src/config_wait_policy.py:172-179 | kind policies are laid over in place, one by one; fails exactly on an unknown kind or a non-policy |
| WaitPolicy.WaitPolicyConfig.OverrideValues | src/config_wait_policy.py:170-181 | supplied fields are set, others stay |
| WaitPolicy.WaitPolicyConfig.ResolveProject | src/config_wait_policy.py:161-182 | a new object with the effective policy; the global one is unchanged |
| WaitPolicy.ResolvedValidates | src/config_wait_policy.py:161-182 | a valid policy resolves for every project to a valid one that covers exactly the known kinds |
| WaitPolicy.EveryKindHasDeadline | src/config_wait_policy.py:41-56 | every kind but human then has a deadline in 60..86400 |
| WaitPolicy.ProjectThenGlobal | src/config_wait_policy.py:161-182 | each field is the project's where supplied, else the global one |
| WaitPolicy.ProjectThenGlobalThenDefault | src/config_wait_policy.py:162-166 | each kind likewise, starting from its default where the global policy does not list it |
| WaitPolicy.ResolvingAgain | src/config_wait_policy.py:161-182 | resolving the result again, for any project, changes nothing |
| ClaimTiming.ClaimTiming.constructor | src/claim_timing.py:25-37 | six phases at zero, nothing running |
| ClaimTiming.ClaimTiming.Enter | src/claim_timing.py:69-78 | entering a phase opens an interval |
| ClaimTiming.ClaimTiming.Remove | src/claim_timing.py:84 | list.remove takes the first equal entry |
| ClaimTiming.ClaimTiming.Exit | src/claim_timing.py:82-85 | leaving a phase closes its interval and books its elapsed time; the running list stays the one its history determines |
| ClaimTiming.AddRunning | src/claim_timing.py:46-48 | the snapshot loop adds each running entry to its phase |
| ClaimTiming.ClaimTiming.TakeSnapshot | src/claim_timing.py:44-56 | for any interleaving each phase total is the sum of the elapsed parts of all its intervals, and the current phase is wrong exactly when the last interval with an entry equal to an open one is of another phase than the last open one |
| ClaimTiming.TotalIsClosedPlusOpen | src/claim_timing.py:46-48 | booked plus running is the total over all intervals |
| ClaimTiming.TimeIgnoresOrder | src/claim_timing.py:47-48 | the running time does not depend on the order of entries, equal ones included |
| ClaimTiming.CloseDropsEntry | src/claim_timing.py:84 | closing an interval takes its own entry out of the open ones |
| ClaimTiming.CloseBooksElapsed | src/claim_timing.py:83-85 | and books exactly its elapsed time |
| ClaimTiming.ExitKeepsTotalsIff | src/claim_timing.py:82-85 | leaving a phase leaves the totals at an instant unchanged exactly when it is that instant |
| ClaimTiming.RemoveFirstTakesOwn | src/claim_timing.py:84 | with distinct entries list.remove takes the interval's own entry |
| ClaimTiming.MisreportsIff | src/claim_timing.py:53 | taking out the first equal entry gives another current phase than taking out the own one exactly when the own one is last, an equal one runs before it, and the entry before it is of another phase |
| ClaimTiming.ExitMisreportsIff | src/claim_timing.py:82-84 | the same for leaving an interval while the running entries stand in the order they were entered |
| ClaimTiming.EqualEntriesMisreport | src/claim_timing.py:53 | an example: fetch, setup, fetch at one instant, and the last one left |
| ClaimTiming.KeptRemove | src/claim_timing.py:84 | list.remove on the last occurrences of each entry leaves the last occurrences of one less |
| ClaimTiming.ExitRemovesFirst | src/claim_timing.py:78-84 | after any interleaving the running list holds the last occurrences of each open entry |
| ClaimTiming.ReportedPhaseIs | src/claim_timing.py:53 | after any interleaving the reported phase is that of the last interval with an open entry; with the exact condition for it to be wrong |

## Left out

- Concurrent transactions: the batch triggers are modelled for serial commits, one row at a time;
  what a trigger sees of uncommitted writes is not modelled.
- The other triggers of the same migration (append-only tables, origins, outbox cursors, root
  intents, attestations): one-row checks of the same kind.
- IntegrationBatches.SealedBatchIsFrozen: assumes that the batch row keeps its key and is not
  deleted, since no trigger guards that; `DeletedBatchThaws` shows what happens otherwise.
- Foreign keys and the constraints of the modelled tables that no property needs.
- Regular expressions for secret keys and token shapes, and what counts as a word character, are
  parameters of `ConfigSecrets`; only the DSN pattern is modelled character by character.
- A string that a client sends with several placeholders: only its first DSN is restored, and no
  claim is made that every placeholder in it is resolved or reported.
- `AgentCron`: floating-point rounding of instants; time-zone data; offsets are whole seconds.
- AgentCron.CatchUpEqualsStepping: stated for zones that change their offset at most once in any 48
  hours, since next_fire can raise in others.
- StartLock.NobodyTakesALiveLock: holds under three assumptions on the run (no start outlasts the
  maximum age, cleaners release only an owner they read, nobody acquires under a PID a cleaner still
  remembers); `EachAssumptionIsNeeded` shows a failing run without each.
- `StartLock`: the two file operations inside one release are one step; owner files that other
  programs write; a failure to read the directory's age other than its absence.
- `TaskRecordMigration`: changes to the directories by other programs during a run, and the
  signature cache of the file comparison.
- MarkerSplice.ListIndex: the kinds and order of the index lines, not their Markdown text.
- `MarkerSplice`: the Markdown lines inside the generated block of a command page.
- ObjectLoop.Body.AddRule: transitions, attempts and iteration limits of the steps, not their command
  names, inputs and guards, so that any case of a decision may hold.
- ObjectLoop.Body.Build: likewise.
- `ObjectLoop`: the playbook engine is not part of this model beyond reading a jump back to a running
  foreach as "next item".
- `ConfigOverlay`: sharing of nested objects between the layers and the result; substitution of
  environment variables.
- `ConfigWatcher`: the polling task, listeners that raise while an event is emitted, and what
  load_config does beyond giving a configuration or failing.
- WaitPolicy.Validate: which errors are reported, not their order and wording.
- `WaitPolicy`: parsing of the raw tree.
- `ClaimTiming`: rounding to four decimals, logging, and the context variable that finds the timing.
