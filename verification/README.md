# Verified model of jma, a JMAP to Maildir synchroniser

jma keeps a Maildir tree, a state database and a JMAP account in step. This project models the parts
of it that search, delete, interleave or fold, and proves what they promise:

- **Rebinding** (`RebindFolders.dfy`): sampling a folder's Message-IDs, narrowing them to a mailbox,
  and the capped backtracking search that resolves ambiguous folders together, all or nothing.
- **Remote dedupe** (`RemoteDedupe.dfy`): which server-side duplicates are destroyed, and why no
  content is lost however the mailboxes overlap.
- **Removal and prune** (`Removal.dfy`, `SkippedRemovals.dfy`, `UnseenMail.dfy`, `CleanRuns.dfy`,
  `PrunePlan.dfy`, `PruneLedger.dfy`, `Prune.dfy`, `PruneOutcomes.dfy`, `PruneEndToEnd.dfy`,
  `MaildirWalk.dfy`, `Drift.dfy`): classifying the drift between disk and database and clearing it,
  over a disk of files and directories, under I/O failures both reported and swallowed.
- **Post-arrival hook** (`Hook.dfy`): the single-slot coalescing runner, as a machine whose steps
  interleave in any order.
- **Change pipeline** (`Watcher.dfy`, `SelfWrites.dfy`, `Runner.dfy`): from file-system event to scan.
- **Folder naming and mailbox trees** (`Layout.dfy`, `Mailbox.dfy`), **header reading**
  (`Headers.dfy`), **paging and chunked `Email/set`** (`JmapEmail.dfy`; sections 5.3 and 5.5 of
  RFC 8620).

`Common.dfy` and `Text.dfy` hold sequence facts, Rust's string order, stable sorting and
splitting/joining. Objects the program updates in place are classes with `modifies` clauses; loops are
loops with invariants; pure code is functions and lemmas. A nondeterministic choice (`:|`) stands for
an iteration order the program leaves open. I/O that can fail is a parameter that says how it fails
(`Removal.Io`, `Prune.RunIo`), so a statement for all parameters is one for all these failures. Among
them are those the program does not notice: a directory that cannot be listed looks empty, and a path
that cannot be examined looks absent (`Removal.Sight`, `Removal.Probe`).

## Where code and comments differ

The model follows the code. What is proved about each difference:

- `src/jmap/email.rs:37-43` says a server that clamps its pages still paginates correctly. With a
  reported total, positions step by the page size, so every id is collected exactly once if and only
  if each planned page is full (`JmapEmail.QueryMailbox`); for a server that clamps below the page
  size that means that two of its pages hold the whole list (`JmapEmail.ClampedPagesSufficeIff`).
  Without a total such a server is always read completely.
- `src/jmap/email.rs:407-408` says `chain_old` is the very first chunk's state. It is that of the
  first chunk with both states. The two agree exactly when the first chunk has both, or by chance the
  same old state (`JmapEmail.ChainOldIsFirstChunks`); they can differ
  (`JmapEmail.ChainCanStartLater`).
- `src/maildir_ops/layout.rs:278-280` says a Maildir++ name without its leading dot comes out whole.
  It does so exactly when it holds no separator (`Layout.UndottedIsSplitAnyway`).
- `src/janitor/remotededupe.rs:378-380` says a group with two locally bound members is refused. Only a
  debug assertion stands there; a release build picks the first bound one, which is what is modelled.
- The plan does not deduplicate the ids it fetched. With distinct ids nothing is lost
  (`RemoteDedupe.NoContentIsLost`); an id fetched twice is destroyed as its own duplicate
  (`RemoteDedupe.RepeatedIdIsDestroyed`), and a mailbox keeps a copy of a group exactly when the
  survivor was fetched once (`RemoteDedupe.SeparateMailboxesKeepACopy`).
- `src/janitor/remotededupe.rs:122-126` takes the failed ids to be among those attempted. They are if
  each answer names ids of its own call only (`RemoteDedupe.FailuresWereAttempted`); nothing in
  `src/jmap/email.rs:536-541` checks that, and one stray id makes the subtraction underflow
  (`RemoteDedupe.StrayFailureUnderflows`).
- Rescuing renames onto `cur/` of the rescue maildir, which replaces a file of that name. Contents
  survive exactly when no two different files end up under one name
  (`Removal.RescueKeepsAllIffNoClash`), which one folder's `cur/` and `new/` can already do
  (`Removal.SameNameInCurAndNewClashes`). The same holds of a whole run (`PruneOutcomes.RunKeepsContentsIff`).
- `src/janitor/prune.rs:246-251` says a deferred folder is left intact. It is certain to be exactly
  when a nested maildir is seen, or healing is blocked, or no message can be moved and the deletion
  takes no more than healing added (`SkippedRemovals.RemovalLeavesFolderIntactIff`). A folder can be
  deferred with all its mail rescued (`SkippedRemovals.SkippedFolderCanBeEmptied`);
  `Removal.Store.RemoveMaildirTree` gives the exact disk in every case.
- `src/maildir_ops/removal.rs:59-61` says a removal never silently drops a file the database does not
  know. It does exactly when it gets to deleting a message that its subdirectory's listing, or the
  probes for the folder's `cur/` and `new/`, did not show to the rescue
  (`UnseenMail.OwnMailIsLostIff`, for any file below the folder `UnseenMail.FileIsLostIff`). The
  listing yields nothing for a directory it cannot read, and `is_dir` answers no where it cannot look;
  either loses mail (`UnseenMail.UnshownMailIsLost`), the first even unforced
  (`PruneEndToEnd.UnlistedMailIsLost`).
- `src/maildir_ops/removal.rs:113-129` refuses a folder with a maildir nested below, so that no mail of
  it is swallowed. A directory that cannot be read hides the maildirs below it
  (`Removal.UnreadableFolderHidesNested`), and then their mail goes
  (`PruneLedger.HiddenMailIsLost`).
- `src/janitor/prune.rs:318-331` resets the `Mailbox` cursor after dropping rows. A database error
  (lines 301, 308 and 330) leaves before that: the cursor is stale exactly when a run ends in such an
  error, the cursor was set, and a folder already removed had a row (`Prune.StaleCursorIff`, with
  `Prune.StaleCursorExample`). Where only database writes fail this can be told from the start
  (`PruneOutcomes.DbFailureStalesIff`).
- `src/janitor/prune.rs:205-211` means the count of a folder's mail to trip the non-empty gate. Mail
  that cannot be listed counts as none (`PrunePlan.CountedZeroIff`), and an unforced prune can then
  take it (`PruneEndToEnd.UncountedMailIsTaken`).
- Mailbox paths deeper than one link beyond the cap depend on the map's iteration order and can lose
  all ancestors (`Mailboxes.DeeperPathCanLoseAncestors`).
- The self-write cache reads its clock before it takes its lock. Garbage collection can show exactly
  when a match reads an earlier clock than some record before it, and that record a later clock than
  one before it (`SelfWrites.CollectionShowsIff`).

## Model

| member | source | states |
|---|---|---|
| RebindFolders.MatchingSearch.Enumerate | src/janitor/rebindfolders.rs:640-668 | Every exit of the backtracking search restores the partial choice and the used set, and `found` has gained the completions of that choice in order, up to the cap and no further. |
| RebindFolders.CompletionsSound | src/janitor/rebindfolders.rs:640-668 | Whatever the search can reach is an injective choice from the feasibility lists extending where it began. |
| RebindFolders.CompletionsComplete | src/janitor/rebindfolders.rs:640-668 | Every injective choice extending the current one is reached. |
| RebindFolders.CompletionsDistinct | src/janitor/rebindfolders.rs:640-668 | With duplicate-free lists no matching is reached twice, so two finds are two matchings. |
| RebindFolders.UniquePerfectMatching | src/janitor/rebindfolders.rs:625-638 | An answer is the one and only matching; for non-empty, duplicate-free input the only matching, if there is one, is always answered; empty input gives none. |
| RebindFolders.StrictFeasibility | src/janitor/rebindfolders.rs:602-623 | Exactly the unclaimed ids in every non-empty narrowed set, none if all sets are empty, sorted. |
| RebindFolders.ForcedAssignment | src/janitor/rebindfolders.rs:522-573 | The guards and the search together answer an assignment exactly when it is the only way to give each folder its own unclaimed mailbox that all its samples allow, and the counts agree. |
| RebindFolders.RebindPlan.CrossResolveAmbiguous | src/janitor/rebindfolders.rs:515-600 | All or nothing: either the plan is unchanged, or each ambiguous folder, in order, gets a candidate for its own mailbox of the forced assignment, one on the server that is neither mapped nor claimed and that all its non-empty samples kept, and no skip remains. |
| RebindFolders.RebindPlan.PromoteAll | src/janitor/rebindfolders.rs:575-599 | The existing candidates stay; behind them the i-th is for the i-th skipped folder and the i-th mailbox of the matching, with that mailbox's own id, name, path and parent, as a cross-mapping without samples; all skips are dropped. |
| RebindFolders.ForcedIsBijection | src/janitor/rebindfolders.rs:563-573 | By counting, a forced assignment is a bijection onto the unclaimed mailboxes, each target lying in every non-empty narrowed set of its folder. |
| RebindFolders.PromotionKeepsTargetsDistinct | src/janitor/rebindfolders.rs:547-600 | Promotion never lets two folders claim one mailbox nor a mapped one, and afterwards every server mailbox is mapped or claimed. |
| RebindFolders.CountGuard | src/janitor/rebindfolders.rs:522-565 | What comparing folders with unclaimed mailboxes adds to the earlier guards. |
| RebindFolders.CountGuardCanFail | src/janitor/rebindfolders.rs:563-565 | That guard is not redundant: two folders whose samples agree on one mailbox are both bound to it, and of three folders and three mailboxes one folder and two mailboxes are left. |
| RebindFolders.IntersectMailboxesBySample | src/janitor/rebindfolders.rs:817-846 | Whatever the map's iteration order: the mailboxes that hold, for every matched sample, some email with exactly that Message-ID; unmatched samples do not vote. |
| RebindFolders.ProbeFolder | src/janitor/rebindfolders.rs:733-810 | Binds to a mailbox exactly when every sample group narrows to it alone among listed mailboxes; otherwise says which kind of skip, with each group's sorted narrowed set. |
| RebindFolders.ConsensusAgreesWithPooling | src/janitor/rebindfolders.rs:765-790 | If all groups narrow to one mailbox, so does a single intersection over all their samples pooled. |
| RebindFolders.PoolingIsWeaker | src/janitor/rebindfolders.rs:765-790 | The converse fails: pooled samples can pick a mailbox the groups do not agree on. |
| RebindFolders.CollectIds | src/janitor/rebindfolders.rs:884-915 | The loop over `cur/` and then `new/` collects each Message-ID once, where it is first seen. |
| RebindFolders.SampleMessageIdGroups | src/janitor/rebindfolders.rs:875-935 | Whatever order the shuffle gives: at most the asked number of groups, all full but the last, none empty, together as many Message-IDs as there are up to what they can hold; only ones of the folder's files, none of which votes twice; and no group only if no file has one. |
| RemoteDedupe.ClassifyGroup | src/janitor/remotededupe.rs:383-453 | When a group is alone, refused for sizes, or acted on; its survivor is the least member under (locally bound, then id), and survivor and destroys are a permutation of the members. |
| RemoteDedupe.BlobsByteEqual | src/janitor/remotededupe.rs:269-296 | True exactly when all members have the same bytes. |
| RemoteDedupe.GroupByMessageId | src/janitor/remotededupe.rs:195-209 | Files every email that has a Message-ID under its first one, in fetch order, and nothing else. |
| RemoteDedupe.Plan.Add | src/janitor/remotededupe.rs:211-239 | A group is ignored, acted on or refused as its verdict says, and the rest of the plan stays. |
| RemoteDedupe.BuildPlan | src/janitor/remotededupe.rs:166-250 | The plan holds one verdict per group and mailbox, as a multiset, whatever order groups are taken in. |
| RemoteDedupe.PlanActs | src/janitor/remotededupe.rs:188-240 | The plan's destroying groups are exactly the groups the verdicts act on. |
| RemoteDedupe.SurvivorIsEarlierTwin | src/janitor/remotededupe.rs:383-453 | A survivor has the Message-ID, size and bytes of everything destroyed for it, and comes no later in the order. |
| RemoteDedupe.TwinSurvives | src/janitor/remotededupe.rs:188-240 | However mailboxes overlap, each destroyed email has a twin that no group destroys, by induction down the survivor order. |
| RemoteDedupe.NoContentIsLost | src/janitor/remotededupe.rs:148-250 | With distinct ids per group, whatever part of the destroys the server carries out, each removed email leaves a twin on the server. |
| RemoteDedupe.DistinctIdsKeepSurvivors | src/janitor/remotededupe.rs:425-453 | Distinct ids in a group keep its survivor out of its own destroy list. |
| RemoteDedupe.RepeatedIdIsDestroyed | src/janitor/remotededupe.rs:189-240 | Without distinct ids the law fails: an id fetched twice destroys the only copy. |
| RemoteDedupe.SeparateMailboxesKeepACopy | src/janitor/remotededupe.rs:188-240 | If no email sits in two of the mailboxes, a group keeps a copy where it was exactly when its survivor's id occurs once among the fetched emails with that Message-ID. |
| RemoteDedupe.VerdictMeans | src/janitor/remotededupe.rs:211-239 | A group of one is left alone, one of equal sizes and bytes is acted on, and any other is refused with the reason and all its members on record. |
| RemoteDedupe.ApplyDestroys | src/janitor/remotededupe.rs:342-359 | What is sent are destroys of exactly the ids in the groups' destroy lists, each as often as it stands there; their number is reported as attempted, and as failed exactly the ids some chunk's answer rejected. |
| RemoteDedupe.PlannedDestroysLeaveTwins | src/janitor/remotededupe.rs:342-359 | For groups of the plan with distinct ids, every email asked to be destroyed has a twin that is not. |
| RemoteDedupe.Run | src/janitor/remotededupe.rs:148-162 | From fetch to destruction: nothing is sent in a dry run or without destroys; otherwise what the plan's groups destroy; and with distinct ids every email asked to be destroyed has a twin that is not. |
| RemoteDedupe.FailuresWereAttempted | src/janitor/remotededupe.rs:342-359 | If each answer names only ids of its own call, the failed ids are among the attempted ones and no more than them. |
| RemoteDedupe.StrayFailureUnderflows | src/janitor/remotededupe.rs:121-136 | An answer that also names an id nobody asked about leaves more failures than attempts. |
| RemoteDedupe.SucceededIsExact | src/janitor/remotededupe.rs:121-136 | For any failed set, the difference counts the attempts that did not fail exactly when repeated failing attempts balance failures never attempted; for failures among the attempts, it never underflows and is right exactly when no failed id was attempted twice. |
| Removal.RescueKeepsAllIffNoClash | src/maildir_ops/removal.rs:260-290 | Moving files to the rescue maildir keeps every content, at its old or new place, if and only if no two different contents meet under one name. |
| Removal.SameNameInCurAndNewClashes | src/maildir_ops/removal.rs:260-290 | The same name in `cur/` and `new/` with different contents is such a clash. |
| Removal.ContainsNestedMaildir | src/maildir_ops/removal.rs:209-231 | True exactly when some directory below that shows a `cur/` or `new/` is reached through names other than `cur`, `new`, `tmp` and those starting with `.jma.` or `.jma-`, listed directories and seen entries, at any depth. |
| Removal.UnreadableFolderHidesNested | src/maildir_ops/removal.rs:210-212 | A concrete tree whose nested maildir the check misses once the folder is unreadable. |
| Removal.OrdinaryGuard | src/maildir_ops/removal.rs:73-110 | The path guard lets an ordinary, unblocked folder name through at its own path, or as absent. |
| Removal.GuardMeans | src/maildir_ops/removal.rs:73-110 | Absolute names are refused, a name with `..` never counts as absent, and any other stands for the path of its parts: taken if there, refused if that is the root or a file is in the way, else absent. |
| Removal.NothingMeansAbsent | src/maildir_ops/removal.rs:85-92 | A name that resolves to nothing and is not refused stands for a path with nothing at or below it. |
| Removal.Store.RescueUnmappedFiles | src/maildir_ops/removal.rs:239-292 | `cur/` before `new/`, files in any order: exactly which listed messages that the DB does not have for the mailbox have moved, also when it stops half way; only such leave, and if it succeeds each leaves a file of its name in the rescue maildir's `cur/`; none where no `cur/` shows; and it succeeds exactly when no listed entry, directory or rename stands in the way. |
| Removal.HealMeans | src/maildir_ops/removal.rs:130-153 | A folder that shows as a maildir but no `cur/` gets `cur/`, `new/` and `tmp/`; nothing else changes. |
| Removal.Store.RemoveMaildirTree | src/maildir_ops/removal.rs:67-201 | Exactly the disk it leaves under any failure, noticed or not, be it removed, skipped or a DB error: what was healed, moved and deleted; deletions lie below the folder and start only after every unmapped message that the rescue was shown has moved and no nested maildir is seen; rows cascade exactly when the tree is gone; skips happen exactly when the stated obstacles exist. |
| Removal.Store.TakeDown | src/maildir_ops/removal.rs:121-182 | The disk half of that, including healing a folder that does not show its `cur/`, with the exact condition for success. |
| SkippedRemovals.RemovalLeavesFolderIntactIff | src/maildir_ops/removal.rs:121-182 | The folder is certain to stay as it was if and only if a nested maildir is seen, healing is blocked, or nothing can be moved and the deletion takes what healing added and no more. |
| SkippedRemovals.SkippedFolderCanBeEmptied | src/maildir_ops/removal.rs:154-182 | A concrete folder that is skipped after all its mail was rescued. |
| UnseenMail.FileIsLostIff | src/maildir_ops/removal.rs:121-182 | A file at or below the folder is lost if and only if the removal gets to deleting it and the rescue was not shown it as one to move, whatever order the listing took. |
| UnseenMail.OwnMailIsLostIff | src/maildir_ops/removal.rs:239-292 | A message of the folder unknown to the DB is lost if and only if the deletion takes it and its subdirectory was not listed, or the folder did not show a `cur/` then, which a `new/` not seen keeps from being restored. |
| UnseenMail.UnshownMailIsLost | src/maildir_ops/removal.rs:239-261 | Concrete failures of the listing and of the probe in which every outcome loses the message and the removal succeeds. |
| MaildirWalk.WalkForMaildirs | src/maildir_ops/drift.rs:213-244 | The recursive walk adds exactly the directories that look like maildirs and are reachable through plain, listed directories. |
| MaildirWalk.FindMaildirFolders | src/maildir_ops/drift.rs:207-211 | From the root, those are returned under their `/`-joined names. |
| Drift.ComputeDrift | src/maildir_ops/drift.rs:74-196 | Missing root before empty map; otherwise strays are the on-disk folders without a row that are no rename target, in path order; orphans the rows without a maildir that are no rename source; and left-out folders those present whose cached path the config, naming mailboxes, neither picks nor has below a picked one, both in row order. |
| Drift.PairOrphans | src/maildir_ops/drift.rs:107-144 | Walking the orphans in order pairs each absent row with the first stray whose sentinel names it. |
| Drift.DriftIsPartition | src/maildir_ops/drift.rs:86-154 | Strays with rename targets are exactly the on-disk folders without a row, and orphans with rename sources exactly the rows without a maildir, each once. |
| Drift.RenamesFollowSentinels | src/maildir_ops/drift.rs:107-144 | Each rename joins a row without a maildir to a stray naming it, and no mailbox id is renamed twice. |
| Drift.RenameTargetIsFirst | src/maildir_ops/drift.rs:107-144 | An absent row that some stray names is always paired, with the least such stray. |
| PrunePlan.MakePlan | src/janitor/prune.rs:81-164 | No plan without a root or without rows; otherwise one entry per stray, left-out folder and orphan in that order: the disk ones with their count and safe exactly if it is zero, the orphans without disk removal and safe exactly if the config leaves their cached path out; and the renames left alone. |
| PrunePlan.SyncedIsNotDropped | src/janitor/prune.rs:111-120 | An entry for a left-out folder has a row with a cached path that the config no longer syncs. |
| PrunePlan.CountedZeroIff | src/janitor/prune.rs:205-229 | A folder counts as empty only if the count comes across none of its messages: not listed, or in a `cur/` that does not show, or itself not seen in `new/`; and, dotfiles in `new/` aside, exactly then. |
| PrunePlan.CountMeans | src/janitor/prune.rs:205-232 | The count is that of the listed messages in `cur/` and `new/` or, where no `cur/` shows, of the files shown in `new/`. |
| PrunePlan.PlanNamesFoldersOnce | src/janitor/prune.rs:94-158 | With folders unique per row, a plan names no folder twice. |
| PrunePlan.NarrowMeans | src/janitor/prune.rs:175-196 | An error exactly when the named folder is no entry's and neither side of a rename; otherwise exactly the entries of that folder and class and the renames from or to it, both in their order. |
| PrunePlan.DeepestFirst | src/janitor/prune.rs:286-293 | Reverse string order takes every folder before the folders above it. |
| PrunePlan.ProcessingMeans | src/janitor/prune.rs:286-293 | The same entries in descending string order, those of one folder as they were. |
| Text.LexIsDictionary | src/janitor/prune.rs:286-293 | That order is a dictionary's: a prefix first, else by the first character that differs. |
| PruneLedger.PrunedStep | src/maildir_ops/removal.rs:183-199 | Cascading and dropping one folder's row takes "the rows of these folders are gone, nothing else is" to one folder more. |
| PruneLedger.TrackRemoval | src/janitor/prune.rs:295-316 | One removal keeps the account of every file: outside the rescue maildir it is where it was, moved or lost; inside, no name goes away and each holds what it held or what was moved onto it. |
| PruneLedger.LoneMessageIsRescued | src/maildir_ops/removal.rs:260-290 | By that account a moved message is in the rescue maildir with its contents, if no other unknown message and no file rescued before has its basename. |
| PruneLedger.RescuedFileStays | src/maildir_ops/removal.rs:260-290 | And a file rescued before keeps its contents, if no unknown message has its basename. |
| PruneLedger.ContentsKeptIffNoneClash | src/maildir_ops/removal.rs:260-290 | And all contents moved or rescued before survive if and only if no two of them have one basename but different contents. |
| PruneLedger.UnknownIsNotDeleted | src/maildir_ops/removal.rs:121-182 | A deletion reaches a message that the DB does not know only after it was rescued, or if a failed listing or probe hid it: of its own directory, or of one on the way to its folder from the folder removed. |
| PruneLedger.HiddenMailIsLost | src/maildir_ops/removal.rs:209-231 | That exception is real: however the removal goes, a message nested behind an unreadable folder is gone. |
| PruneLedger.ClearedStays | src/janitor/prune.rs:295-316 | No later removal, healing or rescue brings back a proper folder already removed. |
| Prune.ApplyPermitted | src/janitor/prune.rs:300-315 | One permitted entry carries the whole run invariant from `k` entries to `k + 1`, or fails with the account of files, rows and removed folders of the run so far; only entries reached are touched. |
| Prune.Apply | src/janitor/prune.rs:268-334 | A whole run under any flags, names and failures: every file is accounted for; only unknown mail of permitted entries reached was moved, and losses lie below those, removed or half removed; removed, skipped and deferred account for each entry reached once; removed folders are gone from disk. On success exactly their rows are gone and the cursor is cleared exactly when one had a row; on a DB error the rows are those of the prefix done and the cursor is as it was. |
| Prune.SkippedMeans | src/janitor/prune.rs:295-301 | Of the entries reached, in order and with their label, exactly those are skipped that need `--force-non-empty` or `--force-in-config` and do not have it; a safe one never is. |
| Prune.RowOfSkippedStays | src/janitor/prune.rs:295-315 | The row of a folder stays, however the run ends, if every entry for it lacks its flag. |
| Prune.OutsideIsUntouched | src/janitor/prune.rs:268-334 | Containment: outside the rescue maildir, a file or directory not at or below a permitted entry that the run reached is as it was, and nothing new is there, however the run ends. |
| Prune.UnknownMailIsKept | src/janitor/prune.rs:268-334 | Conservation, per message: mail unknown to the DB stays or is rescued with its contents, if no other unknown message and no file rescued before has its basename and no failed listing or probe hid it from a removal. |
| Prune.RowsThatAreLeft | src/janitor/prune.rs:299-331 | However a run ends, the mailbox rows gone are exactly those of the folders listed as removed by then. |
| Prune.TablesThatAreLeft | src/maildir_ops/removal.rs:183-199 | And of messages, local state and checkpoints exactly those of these folders are gone, and of one at which dropping the row failed after its cascade. |
| Prune.StaleCursorIff | src/janitor/prune.rs:299-331 | The cursor outlives dropped rows if and only if a DB error ended the run, the cursor was set, and some mailbox row is of a folder removed before. |
| Prune.StaleCursorExample | src/janitor/prune.rs:326-331 | A concrete run that leaves it so. |
| PruneOutcomes.DbFailureStalesIff | src/janitor/prune.rs:299-331 | If only DB writes can fail, the cursor goes stale exactly when it was set, a folder with a row goes before the first write that fails, and one does; all told from the start. |
| PruneOutcomes.MovedExactly | src/janitor/prune.rs:299-316 | On such a run exactly the unknown mail of the folders that go, up to that failure, is moved. |
| PruneOutcomes.RunKeepsContentsIff | src/janitor/prune.rs:299-316 | And all of it, and all rescued before, is there with its contents at the end if and only if none of these clash by basename with different contents. |
| Prune.ProcessingIsDeepestFirst | src/janitor/prune.rs:286-293 | The same order in terms of paths on disk. |
| CleanRuns.NestingDecides | src/maildir_ops/removal.rs:113-129 | With no I/O failing, at its turn a folder can be removed exactly when it shelters no maildir that has no permitted entry. |
| CleanRuns.RemovalStep | src/janitor/prune.rs:295-316 | And the step keeps the disk as that rule predicts for all later folders. |
| Prune.NothingDeferredIff | src/janitor/prune.rs:295-316 | Such a run defers nothing if and only if every maildir nested below a permitted entry has a permitted entry of its own. |
| PruneEndToEnd.OnlyKeptFoldersHoldBack | src/janitor/prune.rs:81-334 | A whole plan with both force flags and no failing I/O defers exactly the folders above a maildir that is a pending rename or still synced, and removes all others. |
| PruneEndToEnd.UnforcedPruneKeepsMail | src/janitor/prune.rs:81-334 | Without `--force-non-empty`, whatever I/O fails, a message stays where it is if planning saw its directory and counted it and no failed listing or probe hid it from the removal of a folder above. |
| PruneEndToEnd.UncountedMailIsTaken | src/janitor/prune.rs:211-229 | The first proviso is needed: a folder with only `new/`, unreadable when counted, is labelled safe and can be removed with its mail. |
| PruneEndToEnd.UnlistedMailIsLost | src/janitor/prune.rs:211-217 | If `cur/` cannot be listed at either time, its folder is labelled safe and every outcome of its removal destroys the unknown message in it. |
| PruneEndToEnd.SyncedRowStays | src/janitor/prune.rs:81-334 | Without `--force-in-config`, whatever fails, the row of an orphan stays if the config still syncs its cached path or it has none. |
| Hooks.Hook.LockedTrigger | src/daemon/hook.rs:150-161 | The critical section of a trigger starts a loop exactly when none runs, else leaves a follow-up pending; it is the machine's trigger step. |
| Hooks.Hook.LockedDecide | src/daemon/hook.rs:182-192 | The critical section after a run either takes the pending follow-up or goes idle; it is the machine's decide step. |
| Hooks.RunWithRetries | src/daemon/hook.rs:196-221 | A run attempts until the first success, and otherwise exactly `retries + 1` times. |
| Hooks.EveryInterleavingIsSafe | src/daemon/hook.rs:144-221 | In every interleaving: one run at a time, pending implies running, no more runs than triggers, at most `retries + 1` attempts each, and an idle hook's last run started after the last trigger. |
| Hooks.SettlesToIdle | src/daemon/hook.rs:178-194 | However its attempts end, a hook left alone reaches idle within a bounded number of steps, with a run after the last trigger. |
| Hooks.DisabledHookStaysIdle | src/daemon/hook.rs:144-148 | A hook without a command never starts anything. |
| SelfWrites.SelfWriteCache.Record | src/sync/self_writes.rs:53-63 | Stamps every path and drops exactly what has expired. |
| SelfWrites.SelfWriteCache.MatchesAll | src/sync/self_writes.rs:80-99 | Matches exactly the non-empty batches of live entries, consumes all of a matched batch, and otherwise changes nothing. |
| SelfWrites.GarbageCollectionIsInvisible | src/sync/self_writes.rs:53-99 | Over any calls among which no match is late, eager collection answers every match like no collection. |
| SelfWrites.CollectionShowsIff | src/sync/self_writes.rs:53-99 | For a schedule of calls and clock readings, some paths and lifetime make the two differ if and only if it has a record, a record with a later clock, and then a match with an earlier clock than that one. |
| SelfWrites.LateClockShowsCollection | src/sync/self_writes.rs:80-88 | The smallest such run. |
| SelfWrites.OneEchoPerWrite | src/sync/self_writes.rs:53-99 | Batches suppressed for a path never outnumber the records of it, whatever the clock does. |
| Watcher.ClassifyBatch | src/daemon/watcher.rs:44-197 | Messages are the paths through `/cur/` or `/new/` whose file name starts with a digit, in order; they ride along unless all are live and in no `cur/`, or all echo self-writes, which consumes those; candidates that fire make the trigger structural. |
| Watcher.ChangeReachesAScan | src/daemon/watcher.rs:116-197 | A `cur/` change, or a vanished message, in a batch that is not wholly jma's own echo is looked at by the scan of whatever cycle absorbs it. |
| Runner.CoalesceTriggers | src/daemon/runner.rs:90-129 | The loop computes the summary of the whole window, of the kind that wins: initial, manual, remote, structural, local. |
| Runner.CoalescedIsBroadest | src/daemon/runner.rs:73-127 | The result is exactly as broad as the broadest trigger absorbed. |
| Runner.CoalescedCarriesAll | src/daemon/runner.rs:90-129 | While it carries paths it carries every path of every trigger, and the candidates in order; a broader one carries none. |
| Runner.CoalescingInStages | src/daemon/runner.rs:90-129 | However a sequence of triggers is split into non-empty windows, coalescing them window by window gives the same kind, the same multiset of paths and the same candidates. |
| Runner.CycleCoversItsTriggers | src/daemon/runner.rs:498-504 | A cycle's scan scope covers whatever any absorbed trigger's own scope would have covered. |
| Runner.CycleScope | src/daemon/runner.rs:498-504 | A cycle walks everything unless all it absorbs are local changes; then it looks at exactly their paths. |
| Layout.WalkFindsChain | src/maildir_ops/layout.rs:189-205 | The parent walk succeeds exactly when a complete, repetition-free chain exists, and returns it. |
| Layout.ParentChain | src/maildir_ops/layout.rs:189-204 | The loop computes that walk and stops on cyclic input. |
| Layout.ResolveFolderPath | src/maildir_ops/layout.rs:184-254 | With one segment per ancestor, root first, `INBOX` under the inbox role and the name otherwise: the first segment the layout does not allow is the error; else the first rule's or the layout's name, unless longer in UTF-8 than the cap. |
| Layout.PathWasResolvedByRule | src/maildir_ops/layout.rs:68-104 | True exactly when the walk succeeds and some rule applies to the joined segments; a resolved name is then a rule's, and otherwise the layout's. |
| Layout.ResolvedNameSplits | src/maildir_ops/layout.rs:206-239 | Where no rule applies, the resolved name splits into one segment per ancestor, root first, in all three layouts: `INBOX` for the inbox role at any depth, the name otherwise. |
| Layout.DecomposeInvertsResolve | src/maildir_ops/layout.rs:289-323 | Where no rule applies, decomposing a resolved name gives `INBOX` or the mailbox's name, by its role, and the resolved name of its parent, in all three layouts. |
| Layout.DecomposeMeans | src/maildir_ops/layout.rs:289-323 | Any name is cut at its last separator: the leaf holds none, and before it is the parent, dotted under Maildir++; without a separator there is none. |
| Layout.EqualNamesEqualSegments | src/maildir_ops/layout.rs:184-254 | Then two mailboxes share a folder name only if the same segments name their ancestors up to the root. |
| Layout.UndottedIsSplitAnyway | src/maildir_ops/layout.rs:299-302 | A Maildir++ name without its dot comes out whole exactly when it holds no separator. |
| Mailboxes.ParentChainDepth | src/jmap/mailbox.rs:85-99 | The capped walk counts the links, on any input including cycles. |
| Mailboxes.LinksMeasures | src/jmap/mailbox.rs:85-99 | That count is the true chain length up to the cap and one beyond it otherwise. |
| Mailboxes.ComposeByDepth | src/jmap/mailbox.rs:118-132 | Mailboxes are composed shallowest first, equally deep ones in any order. |
| Mailboxes.BuildRemotePaths | src/jmap/mailbox.rs:118-132 | Every mailbox gets an entry, cycles or not, and up to one link beyond the cap it is the root-first join of the ancestors' names whatever the iteration order. |
| Mailboxes.DeeperPathCanLoseAncestors | src/jmap/mailbox.rs:118-132 | Any deeper mailbox has an iteration order that leaves it its bare name. |
| Mailboxes.UnderMeansProperPrefix | src/jmap/mailbox.rs:170-174 | A path is under another exactly when that one's segments are a proper prefix of its own. |
| Mailboxes.UnderIsTransitive | src/jmap/mailbox.rs:170-174 | Being under is transitive. |
| Mailboxes.SelectedMeans | src/jmap/mailbox.rs:150-233 | A path is selected exactly when it is a mailbox's and there are no entries, or some entry picks a mailbox with that path or, with subtrees, one above it: by whole path, in any ASCII case if so configured, or as `INBOX` by role. |
| Mailboxes.SelectionIsSubtreeClosure | src/jmap/mailbox.rs:178-233 | With subtrees on, one pass selects exactly the matches and what lies under them, and the result is closed under descendants. |
| Headers.File.ReadFill | src/maildir_ops/headers.rs:81-91 | Loops over short reads until the wanted bytes or end of file. |
| Headers.OverlapSuffices | src/maildir_ops/headers.rs:70-74 | Three bytes of overlap never miss a marker across a chunk boundary. |
| Headers.ReadHeadersSection | src/maildir_ops/headers.rs:48-77 | Reads a prefix of at most the hard cap that holds a marker exactly when the capped file does, with the same first marker, whatever the soft cap. |
| Headers.ContainsEndOfHeaders | src/maildir_ops/headers.rs:96-100 | True exactly when a CRLF CRLF or an LF LF starts somewhere. |
| Headers.ParseFromFile | src/maildir_ops/headers.rs:33-42 | Parses exactly when the capped file holds a complete header section, with the result of parsing the whole of it. |
| JmapEmail.QueryMailbox | src/jmap/email.rs:216-298 | With an honest total, every id is collected exactly once, in any completion order, if and only if each planned page is full; without one, any progressing server is read in order. |
| JmapEmail.FanOut | src/jmap/email.rs:240-256 | Pages completing in any order bring in the multiset of the planned pages. |
| JmapEmail.WalkSerially | src/jmap/email.rs:261-277 | The serial walk terminates, reads a prefix, and the whole list if the server progresses. |
| JmapEmail.PlannedSizes | src/jmap/email.rs:247-248 | The planned pages bring in all missing ids exactly when each is full, and never more. |
| JmapEmail.ClampedPagesSufficeIff | src/jmap/email.rs:37-43 | With a reported total, a server that clamps below the page size is read completely exactly when its list fits in two clamped pages, although it always progresses. |
| JmapEmail.EmailSetOutcome.Merge | src/jmap/email.rs:423-444 | Folding in place agrees with the value-level fold. |
| JmapEmail.ChainSpansSuffix | src/jmap/email.rs:423-444 | The fold ends with a new state exactly when the chunks from the first with both states on are linked without a gap; it then spans that suffix. |
| JmapEmail.ChainOldIsFirstChunks | src/jmap/email.rs:402-410 | `chain_old` is the very first chunk's old state exactly when that chunk reported both states or the first that did starts from the same one; if none did, when it reported no old state. |
| JmapEmail.ChainCanStartLater | src/jmap/email.rs:402-410 | Inputs on which an intact chain starts later, and on which the two agree by chance. |
| JmapEmail.BrokenChainStaysBroken | src/jmap/email.rs:427-443 | Once broken, no further chunk mends the chain. |
| JmapEmail.FoldedFailures | src/jmap/email.rs:424-425 | Failures of all chunks are collected, and nothing else. |
| JmapEmail.SetEmailBatch | src/jmap/email.rs:472-558 | The outcome is the fold of one answer per chunk, and the chunks are the operations in order, none lost or repeated. |
| JmapEmail.NormalizeCrlf | src/jmap/email.rs:563-574 | The loop computes the normal form. |
| JmapEmail.NormalizeCrlfLaws | src/jmap/email.rs:560-574 | That form has no bare LF, differs from the input in line breaks only, is idempotent, and leaves exactly the inputs without bare LF unchanged. |

## Left out

- The sync engine proper (reconcile, execute, scan), the session loop, backoff and the TUI, wizard and CLI.
- HTTP, SQLite, the keychain and real file systems: their answers are parameters; file locks are the kernel's.
- Symbolic links: `Removal.Canonicalize` resolves names on a disk without them. Absolute folder names and
  names that leave the root and come back are refused by the model.
- Regular expressions, mail parsing, SHA-256 and shuffling: a rule is a predicate and a function, a parser
  any function that stops at the header marker, a digest the content it stands for, a shuffle any order.
- Integer widths: counts are unbounded, including the cast of page positions to 32 bits.
- Errors that end an operation without a result (an aborted query, a failed header read).
- RemoteDedupe.NoContentIsLost: assumes every fetch shows the one email the server keeps under an id, and distinct ids per group, since the plan does not deduplicate.
- Prune.Apply: assumes folders outside jma's own namespace and one row per folder. A folder named by a rename rule inside a message directory (a `cur`, `new` or `tmp` component) must not be planned twice, and is not claimed to stay gone, since healing can bring such a directory back.
- Prune.UnknownMailIsKept: leaves out mail whose own message directory an entry names as a folder; PruneEndToEnd.UnforcedPruneKeepsMail likewise.
- Removal.Store.RescueUnmappedFiles: the number of rescued files, which is only logged, is not returned. Directories inside `cur/` or `new/`, which the listing takes for messages, are not.
- Removal.Store.TakeDown: creating a maildir's three directories, to heal or to rescue, is one step that works or does nothing; other processes changing the disk meanwhile are not modelled.
- PrunePlan.CountedZeroIff: an entry whose listing errs, which the source counts as a message, is not modelled.
- PruneEndToEnd.OnlyKeptFoldersHoldBack: assumes the disk and the drift report describe one moment; changes between plan and apply are not modelled. PruneEndToEnd.UnforcedPruneKeepsMail likewise.
- Layout.DecomposeInvertsResolve: under the Fs layout assumes that no segment holds a `/`, which the name validator guarantees upstream (`src/jmap/mailbox.rs:31-67`); Layout.EqualNamesEqualSegments likewise.
- JmapEmail.FanOut: completion order stands for concurrency; in-flight limits are not modelled.
- Watcher.ClassifyBatch: the structural verdict, the private-namespace test and file existence are oracles.
- Headers.ParseFromFile: assumes a parser that looks no further than the header marker.
