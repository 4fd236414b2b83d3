# Verified models of the wiki maintainer and two daemon state machines

This project models three parts of the repository in Dafny and proves what they promise.

1. **The wiki pipeline of `scripts/kb-maintainer`**: plan, ingest, clean-up, lint, publish. It keeps four stores
   in step: the git worktree and HEAD, `state.json`, the published vault, and the publish marker. The compiler
   model is an adversary: it may leave any worktree, or throw.
2. **The codecs under it**: the ZIP writer and reader with their table CRC, the checkpoint package, the page
   header (frontmatter), the wiki index, and the size fitting of pages.
3. **Two daemon state machines**: self-update with boot counting and rollback, and the size-capped rotating log.

`dafny verify dfyconfig.toml` checks the whole project.

## How the models are laid out

Where the program changes state, there is a class or a method with the program's loops (`Publisher.Publisher`,
`Maintainer.Maintainer`, `DryRun`, `SourcePlan`, `QualityPasses`, `Prepare`, `CompileDiff`, `Zip`, `Crc32`,
`Checkpoint`, `Frontmatter`, `PageFit`, `RotatingLog.Writer`, `SelfUpdate.Machine`). Each is proved equal to a
specification on values, and the theorems about runs are proved about that specification.

| part | specification | loops and state | theorems | what the specification means |
|---|---|---|---|---|
| publish | `Publish`, `TreeHash`, `WikiPath` | `Publisher` | `PublishSafety`, `PublishGuards`, `Absorption` | `PublishLaws` |
| plan | `SourcePlan` | `SourcePlan`, `DryRun` | `PlanFacts` | `PlanLaws` |
| ingest | `WikiTree`, `Ingest` | `Maintainer`, `CompileDiff` | `IngestItems`, `IngestRuns`, `IngestTheorems` | `IngestLaws`, `LimitLaws` |
| clean-up, lint, prepare | `Quality`, `PageFile`, `Links`, `Headings`, `WikiIndex` | `QualityPasses`, `WikiIndex`, `Prepare` | `QualityTheorems`, `RepairLosses`, `Prepare` | `QualityLaws`, `TextLaws` |
| codecs | `Crc32`, `Zip`, `Checkpoint`, `Json`, `Frontmatter` | the same modules, `PageFit` | the same modules, `FrontmatterTheorems`, `FrontmatterRoundTrip` | `PackageLaws`, `HeaderLaws`, `LimitLaws` |
| daemon | `RotatingLog`, `SelfUpdate` | the same modules | the same modules | `UpdateLaws` |

A theorem about runs says little if the specification it speaks of decides wrongly. The modules in the last column
therefore tell each decision from what goes into it, and without the function that makes it: when an attempt is
admitted, which paths are restricted, when an import succeeds, what a retraction leaves, which text is a link, a
heading, an index line or a header line, which bytes an archive has, which texts a checkpoint refuses, and in which
order an attempt or an update takes its steps.

What a reader should know about the models:

- A commit is a map from paths to bytes, the vault and the worktree are such maps. A rename, and one write or
  removal of a file, is one step. `PublishSafety.CrashSafety` allows a crash between any two steps, any number of
  times, with HEAD fixed and nobody else writing to the vault.
- Sort orders are parameters; the theorems hold for every order that lists each element once. A digest is a
  parameter without collisions and with hexadecimal text.
- Everything the ingest run does not control is one `Turn` per item: extraction, the model's worktree, the
  passes that tidy it, the validator's verdict, cancellation, and which files git ignores, since the model may
  leave a `.gitignore`. All theorems hold for every sequence of turns.
- A page is the text of its file and what the header parser returns for it: the fields and the body. Detaching a
  source, orphan collection, repair and the index rebuild print pages and read them again, through the printer and
  parser of `Frontmatter`; link dropping works on the text. The module `Quality` runs its passes in two ways: as the
  code does them (`Real`), and as they are meant (`Meant`), where printing loses nothing and link dropping leaves
  the cited sources alone.
- The fixed point `IngestTheorems.SecondPlanIsEmpty`, the co-source theorem and the end-to-end restriction hold
  although an entry nulled by `markForRecompile` cannot be retracted: its commit message slices the hash
  (git-store.js:73), so that item throws and rolls back.
- `SelfUpdate` identifies a binary with the version it reports. Any file operation and any save of the record may
  fail, and a process may be killed after any of them. A version that does not stay up makes no background check,
  since the first check comes later (`FIRST_CHECK_AFTER`) than the moment it would count as healthy
  (`HEALTHY_AFTER`).

## Where the code does less than one would expect

Each of these is stated exactly: as an if-and-only-if, or as a bound together with a run that reaches it.

- A page whose name starts with `.tmp-` passes the wiki path check and is committed, but the directory walk skips
  it: every publish of that commit stops at the tree check (`PublishGuards.TreeCheckPassesIff`).
- A publish bound to a prepared checkpoint cannot be re-run after it absorbed vault pages
  (`PublishGuards.AbsorbedRerunIsRefused`), nor, unless the checkpoint changed nothing, after its state was saved
  (`PublishSafety.BoundRerunsIff`).
- The first publish takes vault pages over as they are, restricted sources included, although `prepare` found
  nothing restricted (`Absorption.FirstPublishIsClearIff`).
- A failed item leaves files behind that git ignores (`IngestItems.ItemIsCleanIff`).
- Repair does not discharge lint on every worktree: link dropping rewrites the header as well as the body, and a page
  that is printed and read again loses what does not fit its header line (`QualityTheorems.RunAsMeantIff`; four
  inputs in `RepairLosses`).
- Detaching a source does not always retract it: the path of another source may be read as its path once it is printed
  bare (`PageFile.DetachRetracts`; input in `RepairLosses.DetachLeavesSibling`).
- Orphan collection leaves an unrecorded source where it prints a page whose `sources` are a text
  (`QualityTheorems.GcLeavesImported`).
- A slug with `]` or `|`, and a summary with a carriage return or a separator inside it, break the page's index
  line, and lint then reports the page as missing (`QualityTheorems.MeantIndexCleanIff`).
- A locator with an apostrophe, an all-digit hash, an empty hash, any bare value with a line feed, and a summary with
  U+2028, U+2029 or an unquoted carriage return do not survive printing and parsing
  (`FrontmatterRoundTrip.RoundTripIff`).
- The clipping branch of `fitPage` never keeps anything: a page loses its whole body exactly when its first
  paragraph is too long, and stays too long exactly when its header is (`PageFit.LongFirstParagraph`,
  `PageFit.FitsIffHeaderFits`).
- Of several new pages that are hard links of one file, the last one listed is kept as a page of its own
  (`CompileDiff.GroupKeepsLast`).
- `createCheckpoint` does not check the text of the manifest, `parseCheckpoint` does
  (`Checkpoint.RoundTrip`).
- A failing version is installed again only after a rollback whose save was lost, and is started more often than
  `MAX_BOOT_ATTEMPTS + 1` times only after a lost count or an unfinished restore (`SelfUpdate.UpdateRunIsBounded`);
  both bounds are reached (`SelfUpdate.BoundsAreReached`). An install whose record is lost is never rolled back
  (`SelfUpdate.HealthyStays`), as the code's own warning says.
- The first write of a log leaves an empty `.1` file exactly when it is larger than the cap
  (`RotatingLog.FirstWrite`).

## Model

| member | source | states |
|---|---|---|
| TreeHash.HashEntriesInjective | scripts/kb-maintainer/publish.js:63-69 | two file maps have the same digest exactly when they are the same map, for any name order and collision-free digest |
| TreeHash.LinesDetermineEntries | scripts/kb-maintainer/publish.js:63-69 | the hashed text determines names and contents although names may hold line feeds and lines are not length-prefixed |
| Publish.BuiltPlanFits | scripts/kb-maintainer/publish.js:127-150 | a built plan writes only files of the target commit, whatever order the diff lists them in |
| PublishSafety.BaselineMeans | scripts/kb-maintainer/publish.js:344-367 | the baseline check by digests accepts exactly the vaults that equal the base or the target tree |
| PublishSafety.VaultOpKeepsMixed | scripts/kb-maintainer/publish.js:412-437 | one write of a target file, or one delete of a listed file outside the target, keeps every vault file at its base or target version |
| PublishSafety.CutsVaultOps | scripts/kb-maintainer/publish.js:412-437 | under the marker the writes and deletes may stop after any number of steps and leave a recoverable state |
| PublishSafety.NothingToPrune | scripts/kb-maintainer/publish.js:402-410 | pruning after the plan removes nothing that the plan did not delete |
| PublishSafety.AppliesExactly | scripts/kb-maintainer/publish.js:412-437 | from every vault of base and target versions, applying the plan ends with exactly the target tree and leaves every unlisted file as it was |
| PublishSafety.CutsBeforeCheck | scripts/kb-maintainer/publish.js:446-502 | the steps from the marker to the tree check may stop anywhere |
| PublishSafety.CutsAfterCheck | scripts/kb-maintainer/publish.js:499-513 | the state save and the marker removal may stop anywhere, and both together publish HEAD |
| PublishSafety.CutsAnywhere | scripts/kb-maintainer/publish.js:446-513 | an attempt from a recoverable state may stop after any number of its steps, the tree check never fails, and a whole attempt publishes HEAD |
| PublishSafety.RecoverableIsAdmitted | scripts/kb-maintainer/publish.js:446-493 | a re-run from a recoverable state changes nothing before the marker and is admitted exactly when no conflict is open and the plan is the checkpoint it expects, if any |
| PublishSafety.RecoverableCompletes | scripts/kb-maintainer/publish.js:446-513 | uninterrupted, an attempt from a recoverable state ends with vault = target, published commit = HEAD and no marker |
| PublishSafety.AfterCrashes | scripts/kb-maintainer/publish.js:446-513 | any number of attempts, whatever they expect and each cut between any two file steps, keeps the state recoverable with the same goal |
| PublishSafety.AdmittedFirst | scripts/kb-maintainer/publish.js:344-367 | a first attempt that the baseline check admits starts from a recoverable state, absorbing included |
| PublishSafety.CrashSafety | scripts/kb-maintainer/publish.js:369-513 | crash safety: after an admitted first attempt and any number of crashed ones, bound to a checkpoint or not, the vault holds only base and target versions; the next attempt is admitted exactly when no conflict is open and its expectation is met, and then publishes the same HEAD and clears the marker |
| PublishSafety.BoundRerunsIff | scripts/kb-maintainer/publish.js:473-513 | re-runs bound to the checkpoint of an attempt that absorbed nothing are admitted, through any crashes, exactly until an attempt saved the state, and after that only if base and target are the same tree |
| PublishGuards.MixedHasNothingForeign | scripts/kb-maintainer/publish.js:369-400 | the replay check accepts no vault with a file of a third version, a file outside both trees, or a missing common file |
| PublishGuards.AdmittedIsMixed | scripts/kb-maintainer/publish.js:344-400 | an admitted attempt found only base and target versions, in normal, recovery and forced replay mode |
| PublishGuards.NoForeignOverwrite | scripts/kb-maintainer/publish.js:344-493 | a foreign vault file stops the attempt before any change to vault or marker, in every mode |
| PublishGuards.AdmittedPublishesTarget | scripts/kb-maintainer/publish.js:412-513 | every admitted attempt ends with exactly the target tree; the hash-mismatch throw is unreachable and no path outside the listed wiki set changes |
| PublishGuards.TreeCheckPassesIff | scripts/kb-maintainer/publish.js:81-108 | the tree check passes exactly when no target page has a name starting with `.tmp-`, which the directory walk skips; such a commit can never be published |
| PublishGuards.AbsorbKeepsPages | scripts/kb-maintainer/publish.js:295-335 | absorbing makes the vault the base and commits a target that has the old pages and the absorbed ones |
| PublishGuards.RemovesNoTargetFile | scripts/kb-maintainer/publish.js:402-437 | no attempt, wherever it stops, removes a file of the commit it publishes |
| PublishGuards.FirstPublishKeepsLivePages | scripts/kb-maintainer/publish.js:207-335 | with nothing published, an attempt leaves the vault unchanged or ends, even at the tree check, with every vault page that has a source on disk or in the known list still there |
| PublishGuards.ExpectationDecides | scripts/kb-maintainer/publish.js:446-493 | from a recoverable state an attempt bound to a prepared checkpoint is admitted exactly when the plan is that checkpoint |
| PublishGuards.AbsorbedRerunIsRefused | scripts/kb-maintainer/publish.js:295-493 | after an attempt that absorbed pages, a re-run bound to a commit from before it is refused wherever the crash fell |
| PublishGuards.SavedRerun | scripts/kb-maintainer/publish.js:446-513 | a crash between the state save and the marker removal leaves a run whose bound re-run is admitted exactly when base and target are the same tree |
| Publisher.DiffRowsMean | scripts/kb-maintainer/publish.js:110-125 | the status rows of two trees say exactly which files were added, modified and deleted |
| Publisher.PartitionRows | scripts/kb-maintainer/publish.js:127-150 | the loop puts every row in the list of its status |
| Publisher.AllKnown | scripts/kb-maintainer/publish.js:376-380 | the first replay loop accepts exactly when every listed vault file is in base or target |
| Publisher.AllReplayable | scripts/kb-maintainer/publish.js:381-399 | the second replay loop accepts exactly when every file there has its base or target bytes, and only files of one tree are missing |
| Publisher.CollectMissing | scripts/kb-maintainer/publish.js:309-315 | the loop finds exactly the live vault pages the target would drop |
| Publisher.Publisher.WriteFiles | scripts/kb-maintainer/publish.js:415-431 | the write loop performs the write steps of the value model in order |
| Publisher.Publisher.RemoveFiles | scripts/kb-maintainer/publish.js:432-435 | the delete loop performs the remove steps of the value model in order |
| Publisher.Publisher.ApplyPlan | scripts/kb-maintainer/publish.js:412-437 | the vault and the step log after applying a plan are those of the value model |
| Publisher.Publisher.PruneVaultExtras | scripts/kb-maintainer/publish.js:402-410 | the vault and the step log after pruning are those of the value model |
| Publisher.Publisher.BuildPublishPlan | scripts/kb-maintainer/publish.js:127-150 | the plan built by loops over the diff is the plan of the value model |
| Publisher.Publisher.AssertReplayableVault | scripts/kb-maintainer/publish.js:369-400 | the two loops accept exactly the vaults the replay predicate describes |
| Publisher.Publisher.AbsorbPublishedVault | scripts/kb-maintainer/publish.js:295-335 | the repository, worktree and published commit after absorbing are those of the value model |
| Publisher.Publisher.DecideAttempt | scripts/kb-maintainer/publish.js:446-493 | everything before the marker changes only what absorbing changes, and admits or refuses as the value model does |
| Publisher.Publisher.PublishWiki | scripts/kb-maintainer/publish.js:446-513 | one attempt has the state, the ending and step by step the file operations of the value model, so the crash theorems speak about it |
| PublishLaws.AllowedIff | scripts/kb-maintainer/validator.js:28-32 | the touched paths are `index.md` and exactly the Markdown files directly under `pages` |
| PublishLaws.WalkedIff | scripts/kb-maintainer/publish.js:81-99 | the directory walk lists the allowed files except pages whose name starts like a staged one |
| PublishLaws.StagedPagesStop | scripts/kb-maintainer/publish.js:499-502 | the tree check passes exactly when no file of HEAD has such a name |
| PublishLaws.AbsorbMeans | scripts/kb-maintainer/publish.js:295-335 | which vault pages are taken over, what stays, and which three commits, worktree and base absorbing leaves, told from the files |
| PublishLaws.AdmittedIff | scripts/kb-maintainer/publish.js:446-493 | exactly when an attempt in any mode is admitted: the index can be rebuilt, no other publish is pending, no conflict is open, the vault is base or target or, replaying, holds nothing foreign, and the expectation is met or the absorbed tree keeps the pages of the expected commit |
| PublishLaws.OtherCommitWaits | scripts/kb-maintainer/publish.js:453-457 | a marker of another commit stops every attempt before anything changes |
| PublishLaws.AbsorbingIsAdmittedIff | scripts/kb-maintainer/publish.js:281-293 | a first publish that absorbs, bound to a commit from before, is admitted exactly when every page of that commit except the index is in the rebuilt tree with the same bytes |
| PublishLaws.AbsorbingBesideHead | scripts/kb-maintainer/publish.js:281-335 | bound to HEAD it is admitted when the index rebuild changes no other file of HEAD |
| PublishLaws.FinishedRecords | scripts/kb-maintainer/publish.js:499-513 | a finished attempt records HEAD as published, the sync status that its adapter gave, and no marker; an unfinished one records neither |
| PublishLaws.PlanMeans | scripts/kb-maintainer/publish.js:127-150 | a file is created, updated or deleted by the plan exactly when it is new, other bytes or gone between the two commits |
| PublishLaws.StepsMean | scripts/kb-maintainer/publish.js:412-437 | the steps of an admitted attempt in their order: the marker, the new and changed pages, the index whenever HEAD has one, the deletions, and if it finishes the state and the marker's removal; which files are written and removed |
| SourcePlan.RestrictedSubtree | scripts/kb-maintainer/acl-preflight.js:15-21 | what lies under a restricted path is restricted |
| SourcePlan.DocumentPrefixes | scripts/kb-maintainer/acl-preflight.js:5-13 | exactly the access prefixes under documents are kept |
| SourcePlan.SortIntoQueues | scripts/kb-maintainer/reconcile.js:26-47 | the loop puts every allowed document in the queue its hash, recorded entry and cache key call for |
| SourcePlan.CollectRemoved | scripts/kb-maintainer/reconcile.js:49-53 | the loop collects exactly the recorded paths that are neither current nor retained |
| SourcePlan.Reconcile | scripts/kb-maintainer/reconcile.js:14-59 | the five queues are the sorted listings of the sets the rules describe |
| DryRun.WalkDocs | scripts/kb-maintainer/dry-run.js:77-92 | the walk fails exactly on an illegal document path and otherwise collects every unrestricted document with its hash |
| DryRun.AddKnown | scripts/kb-maintainer/dry-run.js:94-111 | known documents join without a hash where none is on disk, the first size winning; restricted ones never do |
| DryRun.PlacedKeeps | scripts/kb-maintainer/dry-run.js:119-132 | one document is put in the list of its verdict and an unchecked one that is on disk and recorded is retained |
| DryRun.Classify | scripts/kb-maintainer/dry-run.js:113-133 | the verdict loop fills every list with exactly its documents |
| DryRun.DryRun | scripts/kb-maintainer/dry-run.js:60-178 | the plan, or the error, is that of the value model for every input |
| PlanFacts.UnionMeans | scripts/kb-maintainer/dry-run.js:94-111 | the union holds exactly the local and the unrestricted known documents; local ones keep their hash and others have none |
| PlanFacts.CurrentIsByPath | scripts/kb-maintainer/dry-run.js:96-133 | a path has at most one current item, and a restricted path has none |
| PlanFacts.DeletedIff | scripts/kb-maintainer/dry-run.js:134-158 | a source is planned for deletion exactly when it is recorded, unrestricted, not current and not retained |
| PlanFacts.ImportedPartition | scripts/kb-maintainer/dry-run.js:113-158 | each recorded source is in exactly one of restrict, unchanged, update, would-fetch, delete and retained, and never in add |
| PlanLaws.RestrictedIff | scripts/kb-maintainer/acl-preflight.js:15-21 | a path is restricted exactly when it is a listed prefix or that prefix, a slash if the prefix has none at its end, and a name |
| PlanLaws.SiblingIsFree | scripts/kb-maintainer/acl-preflight.js:15-21 | a folder whose name only begins like a restricted one is not restricted by it |
| PlanLaws.DocumentsPathIff | scripts/kb-maintainer/paths.js:9-33 | a documents path is `documents` and one or more names between slashes, none of them empty or dots |
| PlanLaws.UnionIff | scripts/kb-maintainer/dry-run.js:77-111 | which documents the whitelist is asked about, with which size and hash |
| PlanLaws.QueueIff | scripts/kb-maintainer/reconcile.js:26-47 | a document on disk is up to date exactly when it is recorded at its hash, with the same extractor where both are known, and with a page |
| PlanLaws.ImportListsMean | scripts/kb-maintainer/reconcile.js:26-47 | the four lists of allowed documents, told from the files on disk, the team list and the recorded entries |
| PlanLaws.ChangedIsUpdated | scripts/kb-maintainer/reconcile.js:37-40 | an allowed, unrestricted document on disk that is recorded at another hash is planned as an update |
| PlanLaws.RefusedListsMean | scripts/kb-maintainer/dry-run.js:118-133 | the denied, blocked and ignored lists, told from the whitelist |
| PlanLaws.RetractListsMean | scripts/kb-maintainer/dry-run.js:134-153 | a recorded source is planned for restriction exactly when its path is restricted, and for deletion exactly when it is neither that, nor listed by the team, nor an allowed or unchecked file on disk |
| PlanLaws.PlannedIff | scripts/kb-maintainer/dry-run.js:60-111 | there is a plan exactly when the access list and the schema are known and every path is legal, and which error there is otherwise |
| PageFile.DetachRetracts | scripts/kb-maintainer/ingest.js:248-268 | detaching removes exactly the pages that cite nothing else, prints the other citing pages without the source and changes no other page; a printed page no longer cites the source and has lost nothing else where its header fits, and otherwise still cites it exactly when the line of another source reads as it |
| PageFile.RereadCitesIff | scripts/kb-maintainer/frontmatter.js:44-139 | a printed page cites a path exactly when its header can be read and one of its path lines reads as that path |
| RepairLosses.DetachLeavesSibling | scripts/kb-maintainer/ingest.js:248-268 | input: a page citing `documents/a` and, from a quoted line, `documents/a `; after detaching the first it still cites it |
| IngestItems.IngestOneAtomic | scripts/kb-maintainer/ingest.js:49-171 | an import that succeeds records the current hash in a commit; one that fails leaves HEAD and every entry but its own, which is restored or removed |
| IngestItems.RetractOneAtomic | scripts/kb-maintainer/ingest.js:310-402 | a retraction leaves no page citing the source, in worktree or HEAD, and marks its co-sources, or leaves HEAD and state alone; an entry without a hash cannot be committed and rolls back |
| IngestItems.RunJobAtomic | scripts/kb-maintainer/ingest.js:410-503 | every item keeps HEAD inside the worktree and state = saved state; a failed one moves neither HEAD nor another entry |
| IngestItems.ItemIsCleanIff | scripts/kb-maintainer/git-store.js:58-71 | after an item, failed or not, the worktree is HEAD exactly when git ignored no untracked file of the tree it ended with |
| IngestItems.RestrictedPagesAreDropped | scripts/kb-maintainer/ingest.js:323-361 | where the model fell short on a restricted source, exactly the snapshot pages that cite it are gone, whole, and each other source of theirs is handed back |
| Ingest.InsertAt | scripts/kb-maintainer/ingest.js:442-453 | the insertion position is before the first delete and after every other job |
| Ingest.FindItem | scripts/kb-maintainer/ingest.js:442-453 | the unchanged document of a path is found exactly when there is one |
| IngestRuns.RequeueKeeps | scripts/kb-maintainer/ingest.js:442-453 | requeueing keeps phase order and one job per path, and uses up one waiting document per insertion |
| IngestRuns.StepLine | scripts/kb-maintainer/ingest.js:433-503 | after an item the queue up to and including it is unchanged: every insertion lands after the cursor |
| IngestRuns.StepQueues | scripts/kb-maintainer/ingest.js:433-503 | an item loses no queued job and queues every unchanged document it hands back |
| IngestRuns.Run | scripts/kb-maintainer/ingest.js:433-503 | the growing loop ends for every model and every cancellation, at the end of the queue or at the cancelled item |
| IngestRuns.CancelledIff | scripts/kb-maintainer/ingest.js:456-458 | a run is cancelled exactly at the first item whose turn says so |
| IngestRuns.StepEffect | scripts/kb-maintainer/ingest.js:144-169 | the effect of each kind of item on the recorded sources, per outcome |
| IngestRuns.RunAccounts | scripts/kb-maintainer/ingest.js:433-503 | at the end of every run: finished items keep their outcome, unfinished paths are untouched, handed-back sources are remembered |
| IngestTheorems.PlannedApart | scripts/kb-maintainer/ingest.js:433-441 | no path is planned in two of the four queues |
| IngestTheorems.InitialInLine | scripts/kb-maintainer/ingest.js:433-441 | the first queue is in phase order and has each path once |
| IngestTheorems.BatchQueue | scripts/kb-maintainer/ingest.js:410-503 | every batch runs its whole queue or is cancelled; the queue is the plan plus recompiles of unchanged documents, in phase order, no path twice; HEAD lies in the worktree at the end |
| IngestTheorems.BatchStaysClean | scripts/kb-maintainer/ingest.js:410-503 | where git ignores nothing, the worktree is HEAD after every batch, failed and cancelled ones included |
| IngestTheorems.RecompiledIsCurrent | scripts/kb-maintainer/ingest.js:144-157 | a document imported in the batch is recorded at its current hash |
| IngestTheorems.NoCoSourceForgotten | scripts/kb-maintainer/ingest.js:270-290 | a co-source of a page dropped for a restricted source is recompiled at its current hash in the batch or the next plan updates or adds it, failed and cancelled batches included |
| IngestTheorems.KeysOrigin | scripts/kb-maintainer/ingest.js:144-168 | a recorded source was recorded before the batch or is a current, unrestricted document |
| IngestTheorems.RetractionLasts | scripts/kb-maintainer/ingest.js:310-402 | a planned retraction that succeeded is not undone by a later item |
| IngestTheorems.NoRestrictedSourceLeft | scripts/kb-maintainer/ingest.js:310-402 | after a batch without a failed restriction no restricted source is recorded |
| IngestTheorems.CurrentIsUnchanged | scripts/kb-maintainer/reconcile.js:26-47 | after an ok batch every current document with a hash is unchanged to the next plan |
| IngestTheorems.NothingToDelete | scripts/kb-maintainer/reconcile.js:49-53 | after an ok batch no recorded source is due for deletion |
| IngestTheorems.SecondPlanIsEmpty | scripts/kb-maintainer/reconcile.js:14-59 | fixed point: after an ok batch a second plan over the same inputs has empty add, update, delete and restrict |
| Maintainer.NoFailuresIff | scripts/kb-maintainer/ingest.js:468-503 | the reported failures are exactly the finished items that failed |
| Maintainer.PagesStillCiting | scripts/kb-maintainer/ingest.js:292-308 | the loop finds exactly the pages citing the source |
| Maintainer.DropPagesOnlyCiting | scripts/kb-maintainer/ingest.js:194-204 | the loop removes exactly the pages whose only source is the path |
| Maintainer.DropPagesCiting | scripts/kb-maintainer/ingest.js:270-283 | the loop removes exactly the citing pages and collects exactly their other sources |
| Maintainer.DetachDeletedSource | scripts/kb-maintainer/ingest.js:248-268 | the single pass equals dropping single-source pages and then printing the others without the source and reading them again |
| Maintainer.RequeueAll | scripts/kb-maintainer/ingest.js:442-453 | the loop that splices into the queue is the requeue of the value model |
| Maintainer.Maintainer.CommitAll | scripts/kb-maintainer/git-store.js:58-66 | a commit of the worktree without ignored untracked files is made exactly when that differs from HEAD |
| Maintainer.Maintainer.ResetHard | scripts/kb-maintainer/git-store.js:68-71 | tracked files become those of the commit, and of the untracked ones those git ignores stay |
| Maintainer.Maintainer.IngestOne | scripts/kb-maintainer/ingest.js:49-171 | the repository and state after an import, rollback included, are those of the value model |
| Maintainer.Maintainer.RetractPages | scripts/kb-maintainer/ingest.js:321-361 | the worktree before the tidying passes, and the co-sources, are those of the value model |
| Maintainer.Maintainer.RetractOne | scripts/kb-maintainer/ingest.js:310-402 | the repository and state after a retraction, rollback included, are those of the value model |
| Maintainer.Maintainer.RunJob | scripts/kb-maintainer/ingest.js:454-500 | the dispatch on the action is that of the value model and keeps the store steady |
| Maintainer.Maintainer.IngestBatch | scripts/kb-maintainer/ingest.js:410-503 | a batch has the store, the queue outcome and the failures of the value model run, or the error of the dry run |
| CompileDiff.RestoreWandered | scripts/kb-maintainer/repair.js:59-67 | every changed path that is outside the wiki or a link when its turn comes is put back, and no other; link counts are read anew as names go |
| CompileDiff.TurnDecides | scripts/kb-maintainer/repair.js:60-66 | when its turn comes, a path is put back exactly if it is outside the wiki, a symbolic link, or one of several names its file still has |
| CompileDiff.GroupKeepsLast | scripts/kb-maintainer/repair.js:59-67 | of the names of one file that are all listed, exactly the last one listed stays |
| CompileDiff.LimitCompileDiff | scripts/kb-maintainer/repair.js:58-83 | what is kept of a compile: all proper changes within the cap, else exactly `cap` pages, none ranked after one given up |
| CompileDiff.LimitMeans | scripts/kb-maintainer/repair.js:53-83 | the changes left are allowed, no symbolic links, have no other name left and are the compile's own; a page citing the source is given up only if every kept page cites it |
| IngestLaws.IngestOneIff | scripts/kb-maintainer/ingest.js:62-171 | an import succeeds exactly when the text was extracted, the model answered, tidying succeeded, an affected path is a page, the validator accepts the tidied tree and the document has a hash; the worktree, the commit and the entry it leaves, and those a failure rolls back to |
| IngestLaws.CitesIff | scripts/kb-maintainer/ingest.js:292-308 | a page cites a path exactly when one of its listed sources has it |
| IngestLaws.OnlyCitesIff | scripts/kb-maintainer/ingest.js:194-204 | a page goes as the only citing one exactly when every listed source with a path has this one |
| IngestLaws.RetractedPlainly | scripts/kb-maintainer/ingest.js:321-361 | what a retraction leaves when no page shares the source, and when the model did its work |
| IngestLaws.DeletedIsDetached | scripts/kb-maintainer/ingest.js:347-361 | where the model fell short of a plain delete, every page put back that has another source stays, rewritten without this one; only pages whose sole source it is go, and nothing is handed back |
| IngestLaws.RestrictedIsDropped | scripts/kb-maintainer/ingest.js:347-361 | where it fell short of a restriction, every page put back that cites the source goes, and exactly their other sources are handed back |
| IngestLaws.RetractOneIff | scripts/kb-maintainer/ingest.js:310-402 | a retraction is committed exactly when the tidied tree cites the source no more, the validator accepts it and the entry has a hash; what it forgets, and what a failure puts back |
| IngestLaws.BatchRecordsDisk | scripts/kb-maintainer/ingest.js:410-517 | after an ok batch every allowed, unrestricted file on disk is recorded at its hash, with a page |
| WikiIndex.ParseIndexEntries | scripts/kb-maintainer/validator.js:131-140 | the line loop collects the entries of the specification |
| WikiIndex.ItemRoundTrip | scripts/kb-maintainer/validator.js:131-164 | an index line reads back as the slug, title and summary it was printed from exactly when the summary leaves one line of text on it, and otherwise as no item |
| WikiIndex.IndexRoundTrip | scripts/kb-maintainer/validator.js:287-320 | the rebuilt index reads back to exactly one entry per page whose summary shows, with its title and summary, in any section and page order |
| WikiIndex.IndexHasNoRepeats | scripts/kb-maintainer/validator.js:287-320 | no two entries of a rebuilt index share a slug |
| WikiIndex.UnfitSlugIsMissing | scripts/kb-maintainer/validator.js:131-140 | a slug with `]` or `\|` is never read back from any index text |
| Quality.AliasFits | scripts/kb-maintainer/validator.js:149-164 | any heading yields a title the index line can carry |
| QualityTheorems.FixItemsMeans | scripts/kb-maintainer/repair.js:109-119 | afterwards every cited source with a recorded hash carries it; keys, order and all other fields are unchanged |
| QualityPasses.RebuildIndex | scripts/kb-maintainer/validator.js:287-320 | the loop writes back summaries, reads each written page again, and writes the index of the specification, or fails on a page that is unreadable before or after |
| QualityPasses.CollectPages | scripts/kb-maintainer/orphan-gc.js:15-63 | the single loop removes, rewrites and marks exactly the pages the rules say; a rewritten page is what its printed text reads as |
| QualityPasses.GcOrphanPages | scripts/kb-maintainer/orphan-gc.js:9-69 | the wiki, printing and reading included, and the recompile set are those of the specification |
| QualityPasses.RepairWiki | scripts/kb-maintainer/repair.js:90-139 | the wiki after link dropping, each write of repair and the index rebuild, printing and reading included, is that of the specification |
| QualityPasses.LintRefs | scripts/kb-maintainer/lint.js:64-73 | the source errors of a page are exactly the references not imported or at another hash |
| QualityPasses.LintPage | scripts/kb-maintainer/lint.js:51-79 | the errors of a page are exactly those of the specification |
| QualityPasses.LintIndex | scripts/kb-maintainer/lint.js:85-106 | the index errors are exactly those of the specification |
| QualityPasses.LintBatch | scripts/kb-maintainer/lint.js:39-134 | the errors are exactly those of the specification |
| Links.DropChangesIff | scripts/kb-maintainer/validator.js:96-101 | dropping dead links changes a text exactly when it holds one |
| Links.DropKeepsBefore | scripts/kb-maintainer/validator.js:96-101 | the text before the first link that leads nowhere stays as it is, and so do live links that run past it |
| PageFile.HeaderIsSpared | scripts/kb-maintainer/validator.js:96-115 | dropping dead links in a whole file changes no header field when none of them starts in the header |
| PageFile.RereadIff | scripts/kb-maintainer/validator.js:294-298 | a written page reads back as it was meant exactly when its header fits its lines |
| PageFile.SettledCites | scripts/kb-maintainer/frontmatter.js:120-139 | a page that reads back as meant cites the same keys, and every hash that is a text |
| Headings.HeadingIsTrimmed | scripts/kb-maintainer/validator.js:149-152 | a heading is trimmed and stands on one line |
| Headings.HeadingFed | scripts/kb-maintainer/validator.js:149-152 | a line feed at the end of a body makes no other heading |
| QualityTheorems.RebuiltIndexCleanIff | scripts/kb-maintainer/validator.js:287-320 | a rebuilt index passes lint exactly when its lines can carry every slug and every summary leaves one line of text |
| QualityTheorems.MeantIndexCleanIff | scripts/kb-maintainer/validator.js:287-320 | the same told from the pages before the rebuild, where the headers it writes fit: exactly when every slug fits and every trimmed summary is one line and not empty |
| QualityTheorems.GcLeavesImported | scripts/kb-maintainer/orphan-gc.js:9-69 | after orphan collection whose headers fit, every cited source is recorded as imported, exactly when no page whose sources are a text is printed again |
| QualityTheorems.GcDropsRestricted | scripts/kb-maintainer/orphan-gc.js:31-42 | a page that cited a restricted source and one no longer imported goes whole, and its live co-sources are recompiled |
| QualityTheorems.PageRunIff | scripts/kb-maintainer/repair.js:94-137 | one page's file is, after link dropping and each write, what it was meant to be exactly when link dropping spares its sources and every header written for it fits |
| QualityTheorems.RunAsMeantIff | scripts/kb-maintainer/repair.js:90-139 | orphan collection and repair leave every file, after each pass, as it was meant to be exactly when link dropping spares its sources and every header they mean to write fits |
| QualityTheorems.MeantRepairReturns | scripts/kb-maintainer/repair.js:90-139 | repair as it is meant always returns, and every page cites only imported sources at their recorded hashes |
| QualityTheorems.PassesKeepReading | scripts/kb-maintainer/repair.js:90-139 | every page that orphan collection and repair leave is what its file reads as |
| QualityTheorems.RepairDischargesLint | scripts/kb-maintainer/repair.js:90-139 | under exactly that condition, and with sources in lists, lint reports no unreadable page, missing source or hash mismatch, and no index error exactly when the index lines can carry the slug and summary each repaired page has before the rebuild |
| RepairLosses.LinkInPathIsReported | scripts/kb-maintainer/validator.js:96-111 | input: the imported path `documents/[[a]].md` without a page `a`; repair turns it into `documents/a.md` and lint reports it |
| RepairLosses.LinkIntoBodyIsReported | scripts/kb-maintainer/validator.js:96-111 | input: the imported path `documents/[[a` and closing brackets in the body; repair takes both away and lint reports `documents/a` |
| RepairLosses.BlankInPathIsReported | scripts/kb-maintainer/repair.js:108-134 | input: the path `documents/a ` from a quoted line at a stale hash; repair drops the blank and lint reports it |
| RepairLosses.StrayLineIsUnreadable | scripts/kb-maintainer/frontmatter.js:103-109 | a header whose last value goes on in a line that is no header line cannot be read |
| RepairLosses.FeedInValueThrows | scripts/kb-maintainer/validator.js:287-298 | input: `updated` quoted with a line feed in it, at a stale hash; the index rebuild throws |
| QualityTheorems.LintMeansRecorded | scripts/kb-maintainer/lint.js:64-106 | a wiki without lint errors cites only imported sources, at their recorded hashes |
| Prepare.ChangedPagesIff | scripts/kb-maintainer/desktop-runner.js:129-212 | a page change is counted exactly when some page file is new, gone or other bytes |
| Prepare.NoFailedRestriction | scripts/kb-maintainer/desktop-runner.js:204-209 | a batch that ended without a reported restriction failure had none |
| Prepare.EndToEndRestriction | scripts/kb-maintainer/desktop-runner.js:204-209 | whatever the compiler wrote, however files were printed and whatever git ignored: if no restriction failed and lint is empty, every page of the worktree and of HEAD cites only imported sources at equal hashes, none restricted |
| Prepare.Prepare | scripts/kb-maintainer/desktop-runner.js:333-376 | `canPublish` holds exactly when something was selected, lint is empty, no retraction failed and a page file changed; whenever lint is empty and no restriction failed, the committed wiki is publishable |
| Absorption.RebuiltIsClearIff | scripts/kb-maintainer/validator.js:287-320 | an index rebuild whose headers fit keeps every cited source of a file |
| Absorption.AbsorbedIsClearIff | scripts/kb-maintainer/publish.js:295-335 | the commit made by absorbing cites nothing restricted exactly when no absorbed vault page does |
| Absorption.PublishableIsClear | scripts/kb-maintainer/desktop-runner.js:204-209 | no file of a prepared wiki cites anything restricted |
| Absorption.FirstPublishIsClearIff | scripts/kb-maintainer/publish.js:295-513 | after the first publish of a prepared wiki the vault cites nothing restricted exactly when none of the vault pages taken over does |
| QualityLaws.KeptInOrder | scripts/kb-maintainer/orphan-gc.js:19-25 | orphan collection keeps the recorded sources of a page, in their order |
| QualityLaws.FateIff | scripts/kb-maintainer/orphan-gc.js:18-52 | which pages orphan collection keeps, removes and rewrites, told from their cited sources |
| QualityLaws.GcLeavesIff | scripts/kb-maintainer/orphan-gc.js:9-70 | orphan collection does nothing, and rebuilds no index, where every page it can read cites recorded sources only |
| QualityLaws.GcWritesMean | scripts/kb-maintainer/orphan-gc.js:49-62 | what it writes of a page: the recorded sources, the mark and the schema version; all else stays |
| QualityLaws.RecompileIff | scripts/kb-maintainer/orphan-gc.js:27-37 | exactly the recorded, unrestricted sources of pages collected for a restricted path are compiled again |
| QualityLaws.FixedMeans | scripts/kb-maintainer/repair.js:90-127 | repair gives a page a redacted summary and body and every listed source its recorded hash |
| QualityLaws.EndLineMeans | scripts/kb-maintainer/repair.js:128-130 | the body repair prints ends with a line feed |
| QualityLaws.RepairLeavesIff | scripts/kb-maintainer/repair.js:90-127 | repair leaves a file alone exactly when nothing in it is to be redacted, every listed source carries its recorded hash and the file is within the limit |
| QualityLaws.RepairedWithin | scripts/kb-maintainer/repair.js:108-127 | where normalising keeps to the limit, so does every page repair leaves before the index rebuild |
| QualityLaws.LintCleanIff | scripts/kb-maintainer/lint.js:39-105 | lint reports nothing exactly when every page can be read, keeps to the limit, has no dead link and cites only recorded sources at their hashes, and the index names every page once and nothing else |
| QualityLaws.SectionMeans | scripts/kb-maintainer/validator.js:14-22 | the section of each page type, and of every other type |
| QualityLaws.SummaryMeans | scripts/kb-maintainer/validator.js:142-164 | the summary the index shows of a page |
| QualityLaws.AliasOnce | scripts/kb-maintainer/validator.js:154-160 | a run of white space, brackets and bars counts as one space in a title |
| QualityLaws.AliasMeans | scripts/kb-maintainer/validator.js:154-160 | words with single spaces between them are a title as they are, spaces around them taken off; no word at all is `page` |
| TextLaws.TrimIff | scripts/kb-maintainer/validator.js:142-160 | trimming takes white space off both ends, all of it and nothing else |
| TextLaws.SpaceIff | scripts/kb-maintainer/validator.js:142-160 | white space and line terminators, character by character |
| TextLaws.LinkIff | scripts/kb-maintainer/validator.js:96-102 | a text starts with a wiki link exactly when it is made of brackets, a target, a hash and a label, the last two if they are there |
| TextLaws.NothingToDrop | scripts/kb-maintainer/validator.js:96-102 | a text without a link stays as it is |
| TextLaws.FirstLinkDrops | scripts/kb-maintainer/validator.js:96-102 | the first link stays if it leads somewhere and else becomes its label, or its target, trimmed; the text before it stays and the text behind it is treated alike |
| TextLaws.HeadingIff | scripts/kb-maintainer/validator.js:149-152 | a line is a heading exactly when it is one to six hashes, white space and more text on a line; it reads as that text, trimmed |
| TextLaws.FirstHeading | scripts/kb-maintainer/validator.js:149-152 | the heading of a body is its first line that is one |
| TextLaws.NoHeading | scripts/kb-maintainer/validator.js:149-152 | a body without such a line has no heading |
| TextLaws.ItemIff | scripts/kb-maintainer/validator.js:131-140 | an index line is an entry exactly when it is made of a slug, a title if it is there, and a summary; without a title the slug stands for it |
| TextLaws.LineEntries | scripts/kb-maintainer/lint.js:20-27 | a line gives one entry or none |
| TextLaws.EntriesAppend | scripts/kb-maintainer/lint.js:20-27 | the entries of an index are those of its lines, in their order |
| TextLaws.IndexIs | scripts/kb-maintainer/validator.js:287-318 | the text of a rebuilt index: a title, the sections in order with their heading, their item lines in order and an empty line |
| Prepare.TidyingMarks | scripts/kb-maintainer/desktop-runner.js:340-355 | after tidying, a source is recorded without its hash exactly when it lost a page to a restricted path, and as it was otherwise |
| Prepare.LostIsUpdated | scripts/kb-maintainer/desktop-runner.js:340-355 | such a source is updated by the next plan, if its file is still allowed |
| Prepare.SelectionIff | scripts/kb-maintainer/desktop-runner.js:156-163 | the selection counts as empty exactly when no allowed file is on disk, nothing is denied or blocked, and no recorded source is restricted or gone |
| Crc32.ShiftsLinear | scripts/kb-maintainer/zip.js:5-15 | n shifts of the register are linear over exclusive or |
| Crc32.EightShifts | scripts/kb-maintainer/zip.js:5-15 | eight shifts are those of the low byte combined with the rest moved down |
| Crc32.FeedByte | scripts/kb-maintainer/zip.js:17-23 | feeding a byte bit by bit is eight shifts of its exclusive or with the register |
| Crc32.TableEntry | scripts/kb-maintainer/zip.js:5-15 | the inner loop computes eight shifts |
| Crc32.BuildTable | scripts/kb-maintainer/zip.js:5-15 | all 256 entries are the eight shifts of their index |
| Crc32.TableStep | scripts/kb-maintainer/zip.js:17-23 | one table lookup does what feeding the byte bit by bit does |
| Crc32.Crc32 | scripts/kb-maintainer/zip.js:17-23 | the table-driven loop returns the checksum of the reflected 0xEDB88320 shift register |
| Zip.FitsIff | scripts/kb-maintainer/zip.js:37-96 | an archive can be written exactly when names fit 16 bits, the count fits 16 bits and the two totals fit 32 bits |
| Zip.ZipStore | scripts/kb-maintainer/zip.js:37-96 | the writer throws exactly when a field overflows and otherwise returns the archive of the specification |
| Zip.FindEnd | scripts/kb-maintainer/zip.js:106-116 | the backward search finds the last end record there is room for |
| Zip.Unzip | scripts/kb-maintainer/zip.js:106-139 | the reader's loop returns the map or the error of the specification for every byte string |
| Zip.EntryReads | scripts/kb-maintainer/zip.js:120-137 | a written central record reads back as its name and, through its local header, its bytes |
| Zip.CentralPointsAtLocal | scripts/kb-maintainer/zip.js:60-84 | the offset field of every central record points at that file's own local header |
| Zip.RoundTrip | scripts/kb-maintainer/zip.js:37-139 | for every list of files that fits, unzipping the archive gives each name, with backslashes turned, the bytes of the last file of that name |
| Zip.NothingLostIff | scripts/kb-maintainer/zip.js:135-138 | the reader's map has one entry per file exactly when the turned names differ |
| Zip.ExactRoundTrip | scripts/kb-maintainer/zip.js:37-139 | files with different backslash-free names come back as exactly those names and bytes |
| Checkpoint.CreateCheckpoint | scripts/kb-maintainer/checkpoint.js:72-126 | a checkpoint is made exactly when the inputs exist, the wiki is clean, the four parts are safe and the archive fits; its manifest and bytes are those of the specification |
| Checkpoint.CheckTexts | scripts/kb-maintainer/checkpoint.js:146-148 | the safety loop accepts exactly when all five texts pass |
| Checkpoint.CheckRecorded | scripts/kb-maintainer/checkpoint.js:149-160 | the digest loop accepts exactly when all four recorded sizes and digests match |
| Checkpoint.ParseCheckpoint | scripts/kb-maintainer/checkpoint.js:128-165 | a package is accepted exactly when it has the five entries, schema version 1, safe texts and matching sizes and digests |
| Checkpoint.RoundTrip | scripts/kb-maintainer/checkpoint.js:72-165 | a created checkpoint is accepted exactly when the text of its manifest, which creation does not check, is safe; then manifest and parts are the same |
| Checkpoint.ManifestPinsParts | scripts/kb-maintainer/checkpoint.js:149-160 | two accepted packages with the same manifest have the same four parts |
| Json.QuotedReads | scripts/kb-maintainer/frontmatter.js:28-42 | parsing undoes `JSON.stringify` for every string |
| Json.ArrayReads | scripts/kb-maintainer/frontmatter.js:129-131 | parsing undoes `JSON.stringify` for every array of strings |
| Json.RequotedArrayIff | scripts/kb-maintainer/frontmatter.js:18-24 | an array read after its apostrophes became quotes is the array printed exactly when no string has an apostrophe |
| Frontmatter.LinesStayCoherent | scripts/kb-maintainer/frontmatter.js:62-116 | the parser's current source and open list always refer to the last source |
| Frontmatter.ParseFrontmatter | scripts/kb-maintainer/frontmatter.js:44-118 | the line loop returns the page or the error of the specification for every text |
| Frontmatter.SerializeFrontmatter | scripts/kb-maintainer/frontmatter.js:120-139 | the pushed and joined lines are the text of the specification |
| FrontmatterTheorems.IntReads | scripts/kb-maintainer/frontmatter.js:3-7 | a printed integer is read as that number |
| FrontmatterTheorems.ScalarIff | scripts/kb-maintainer/frontmatter.js:3-26 | a bare text is read as itself exactly when it is trimmed, no keyword, no integer, not quoted and no JSON array |
| FrontmatterTheorems.ReadsField | scripts/kb-maintainer/frontmatter.js:103-115 | how a field line is read from any parser state |
| FrontmatterTheorems.ReadsPath | scripts/kb-maintainer/frontmatter.js:67-80 | a path line starts a new source at indent two |
| FrontmatterTheorems.ReadsNested | scripts/kb-maintainer/frontmatter.js:86-99 | a nested line sets its key in the current source; an empty value opens a list instead |
| FrontmatterTheorems.ReadsAllSources | scripts/kb-maintainer/frontmatter.js:62-101 | any number of printed sources is read back in order, or the header is unreadable |
| FrontmatterTheorems.FindsFence | scripts/kb-maintainer/frontmatter.js:48-53 | the closing fence is found right after the last header line, whatever the body |
| FrontmatterTheorems.ReadsPage | scripts/kb-maintainer/frontmatter.js:44-139 | what a printed page reads back as: each field as its line is read, and the body ended by a line feed |
| FrontmatterTheorems.RawIff | scripts/kb-maintainer/frontmatter.js:3-26 | a value printed bare survives exactly when it is one line and a plain scalar; a nested one must not be empty |
| FrontmatterTheorems.SummaryIff | scripts/kb-maintainer/frontmatter.js:28-42 | a summary survives exactly when it has no U+2028 or U+2029 and any carriage return comes with something that makes it quoted |
| FrontmatterTheorems.LocatorsIff | scripts/kb-maintainer/frontmatter.js:18-24 | a list of locators survives exactly when none has an apostrophe, U+2028 or U+2029 |
| FrontmatterRoundTrip.LinesGive | scripts/kb-maintainer/frontmatter.js:62-117 | every text the parser returns was given to its key by one line of the header |
| FrontmatterRoundTrip.StringIsShorter | scripts/kb-maintainer/frontmatter.js:3-26 | a text that is read is no longer than the text it is read from, and as long only if it is that text |
| FrontmatterRoundTrip.FeedIsLost | scripts/kb-maintainer/frontmatter.js:44-139 | a header with a line feed in a bare value never comes back as it was |
| FrontmatterRoundTrip.RoundTripIff | scripts/kb-maintainer/frontmatter.js:44-139 | for every header: the same six fields, sources and body come back exactly when every field fits its line |
| PageFit.ClipFits | scripts/kb-maintainer/frontmatter.js:159-165 | clipping keeps the longest beginning that fits |
| PageFit.FitPage | scripts/kb-maintainer/frontmatter.js:167-192 | the page is whole, or has the paragraphs up to the first that does not fit |
| PageFit.FitsIffHeaderFits | scripts/kb-maintainer/frontmatter.js:167-192 | the cut page is within the size exactly when its header and a line feed are |
| PageFit.LongFirstParagraph | scripts/kb-maintainer/frontmatter.js:179-190 | a page that has to be cut loses its whole body exactly when its first paragraph does not fit; the clipping branch keeps nothing |
| LimitLaws.SizeCounts | scripts/kb-maintainer/frontmatter.js:159-176 | the size of a text is the number of its UTF-8 bytes |
| LimitLaws.ClipIsBackedUp | scripts/kb-maintainer/frontmatter.js:159-165 | the clip is the text of the bytes up to the place the loop backs up to over continuation bytes |
| LimitLaws.ParagraphsMean | scripts/kb-maintainer/frontmatter.js:172-176 | the paragraphs are what stands between runs of two or more line feeds and is not blank, in order |
| LimitLaws.OneParagraph | scripts/kb-maintainer/frontmatter.js:172-173 | a body without a blank line is one paragraph, or none if it is blank |
| LimitLaws.BodyMeans | scripts/kb-maintainer/frontmatter.js:174-184 | the body of a cut page is its paragraphs with a blank line between every two, or a line feed without any |
| LimitLaws.KeptStayBefore | scripts/kb-maintainer/repair.js:58-88 | of the changed pages the cap keeps those citing the source longest, then new ones, then older ones; deletions go first |
| LimitLaws.SharedIff | scripts/kb-maintainer/repair.js:33-39 | the link count is above one exactly when the file has a name outside, or two names in the worktree |
| PackageLaws.CheckValue | scripts/kb-maintainer/zip.js:17-23 | the checksum of no bytes and of one letter |
| PackageLaws.ArchiveIsZip | scripts/kb-maintainer/zip.js:37-96 | every field of the archive stands at its offset, little-endian, and the records follow each other without a gap |
| PackageLaws.ForeignReads | scripts/kb-maintainer/zip.js:106-139 | an archive anyone wrote, with stored and deflated files, extra fields, comments and gaps, reads as the last file of each name |
| PackageLaws.ForeignStops | scripts/kb-maintainer/zip.js:106-139 | otherwise the complaint is about the first file that does not open, and says why |
| PackageLaws.NoArchiveIff | scripts/kb-maintainer/zip.js:106-116 | the reader denies an archive exactly when no end record stands where one fits |
| PackageLaws.RefusalIff | scripts/kb-maintainer/checkpoint.js:47-70 | a text is refused exactly when it shows a key, a transcript, the raw cache or, outside the bundle, a home path, told from its characters |
| PackageLaws.AcceptedIff | scripts/kb-maintainer/checkpoint.js:128-165 | a package is accepted exactly when it has the five entries and no others, schema version 1, harmless texts, and sizes and digests as attested |
| PackageLaws.CreatableIff | scripts/kb-maintainer/checkpoint.js:72-126 | a checkpoint can be made exactly of a clean wiki with a configuration, a readable state, harmless parts and fields that fit |
| PackageLaws.ManifestMeans | scripts/kb-maintainer/checkpoint.js:83-108 | what the manifest of a new checkpoint attests, and that it names a target only when ready to publish |
| HeaderLaws.PaddedValue | scripts/kb-maintainer/frontmatter.js:3-5 | white space around a value makes no difference |
| HeaderLaws.SingleQuotedReads | scripts/kb-maintainer/frontmatter.js:15-17 | a text in single quotes is the text between them, whatever it is |
| HeaderLaws.DoubleQuotedReads | scripts/kb-maintainer/frontmatter.js:8-14 | a text in double quotes is what its escapes stand for, and the text between the quotes if they are no JSON |
| HeaderLaws.NumberReads | scripts/kb-maintainer/frontmatter.js:7-7 | decimal digits with a sign or not, leading zeros included, are their number |
| HeaderLaws.BracketReads | scripts/kb-maintainer/frontmatter.js:18-24 | a text that starts with a bracket is the JSON it is once its apostrophes are quotes, or else itself |
| HeaderLaws.LiteralIff | scripts/kb-maintainer/frontmatter.js:9-10 | `JSON.parse` reads a string literal exactly from the spellings of its characters, surrogate pairs included |
| HeaderLaws.EscapeMeans | scripts/kb-maintainer/frontmatter.js:28-42 | which characters `JSON.stringify` escapes, and how |
| HeaderLaws.QuotedIs | scripts/kb-maintainer/frontmatter.js:28-42 | the printed text of a string is the escapes of its characters in quotes |
| HeaderLaws.QuotesIff | scripts/kb-maintainer/frontmatter.js:28-42 | a summary is quoted exactly when it is empty, a keyword, a number, not trimmed or has a special character |
| HeaderLaws.KeyedIff | scripts/kb-maintainer/frontmatter.js:69-69 | a line is a key and a value exactly when it is made of word characters, a colon, white space and one line of text |
| HeaderLaws.DashedIff | scripts/kb-maintainer/frontmatter.js:65-68 | a line is a list item exactly when it is made of an indentation, a dash, white space and one line of text |
| HeaderLaws.BlankReads | scripts/kb-maintainer/frontmatter.js:62-62 | a line of white space does nothing |
| HeaderLaws.SourcesReads | scripts/kb-maintainer/frontmatter.js:98-106 | the key of the sources without a value starts an empty list of them, wherever it stands |
| HeaderLaws.NewSourceReads | scripts/kb-maintainer/frontmatter.js:65-76 | a dashed key not deeper than the sources before it starts a source, at any indentation |
| HeaderLaws.ListReads | scripts/kb-maintainer/frontmatter.js:77-80 | a list on lines of its own, at any indentation, has the values of all its lines, in order |
| HeaderLaws.NestedReads | scripts/kb-maintainer/frontmatter.js:83-95 | a key deeper than the dash of its source sets that key; without a value it opens a list |
| HeaderLaws.FieldReads | scripts/kb-maintainer/frontmatter.js:108-115 | a key at the margin sets a field and ends the sources |
| HeaderLaws.StrayReads | scripts/kb-maintainer/frontmatter.js:108-111 | every other line is an error that names it |
| HeaderLaws.FenceIff | scripts/kb-maintainer/frontmatter.js:45-51 | only a text with an opening fence at its start and a closing one behind it has a header |
| HeaderLaws.FenceMeans | scripts/kb-maintainer/frontmatter.js:44-53 | the header ends at the first closing fence and is read line by line; what follows the fence is the body |
| HeaderLaws.ShownMeans | scripts/kb-maintainer/frontmatter.js:120-133 | how texts, numbers, truth values and lists show in the printed header |
| HeaderLaws.SettledMeans | scripts/kb-maintainer/frontmatter.js:120-139 | the six fields of a printed page, and what stands for those that are not there |
| HeaderLaws.SettledSourceMeans | scripts/kb-maintainer/frontmatter.js:129-133 | path, hash and locators of a printed source |
| HeaderLaws.CitedMeans | scripts/kb-maintainer/ingest.js:302-303 | the sources a header cites; a list of them on one line cites as many that have no path, and a loop over a text visits its letters |
| HeaderLaws.UnlinkedMeans | scripts/kb-maintainer/validator.js:104-115 | dropping links works on the whole text of a file, which is then read again, whether it could be read or not |
| HeaderLaws.SerializedIs | scripts/kb-maintainer/frontmatter.js:120-139 | the text of a printed page, line by line |
| RotatingLog.Writer.constructor | apps/daemon/src/logging.rs:75-84 | the cap is at least 4096 and at least one rotated file is kept |
| RotatingLog.Writer.Open | apps/daemon/src/logging.rs:130-140 | the active file exists and its length is tracked |
| RotatingLog.Writer.Rotate | apps/daemon/src/logging.rs:148-153 | the rename loop is the rename chain of the specification |
| RotatingLog.Writer.WriteAllBytes | apps/daemon/src/logging.rs:89-119 | one write has the files and the tracked length of the specification |
| RotatingLog.RotationMoves | apps/daemon/src/logging.rs:148-153 | rotation moves every file up by one and drops only the file numbered `keep` |
| RotatingLog.RunHoldsSegments | apps/daemon/src/logging.rs:89-153 | after every run of writes and restarts the files are the newest `keep + 1` segments of the greedy cut of the stream, and the tracked length is the file's |
| RotatingLog.SegmentsAreWellCut | apps/daemon/src/logging.rs:101-109 | the cut covers the stream; every segment fits the cap or is one write, and is closed only when the next write needs it |
| RotatingLog.LogIsSuffix | apps/daemon/src/logging.rs:89-153 | oldest first, the log is a suffix of the stream cut between two writes, and nothing is missing until every place is taken |
| RotatingLog.FilesWithinCap | apps/daemon/src/logging.rs:89-119 | every file is within the cap or is one oversized write |
| RotatingLog.NeighboursExceedCap | apps/daemon/src/logging.rs:101-109 | two neighbouring files together exceed the cap: rotation is never early |
| RotatingLog.FirstWrite | apps/daemon/src/logging.rs:89-119 | the first write into an empty directory leaves an empty rotated file exactly when it is larger than the cap |
| SelfUpdate.Machine.SwapIn | apps/daemon/src/self_update.rs:372-390 | the files after a swap, whichever operations fail, and the files after each operation |
| SelfUpdate.Machine.InstallBinary | apps/daemon/src/self_update.rs:277-286 | the same for staging, smoke test and swap |
| SelfUpdate.Machine.Restore | apps/daemon/src/self_update.rs:502-511 | the same for a rollback |
| SelfUpdate.Machine.CheckBoot | apps/daemon/src/self_update.rs:452-500 | the disk, the verdict and the files after each operation of a boot check are those of the value model |
| SelfUpdate.Machine.ClearPendingFor | apps/daemon/src/self_update.rs:520-533 | the record is cleared exactly for the version that stayed up, if the save succeeds |
| SelfUpdate.Machine.UpdateInstalled | apps/daemon/src/self_update.rs:551-597 | the disk, the outcome and the files after each operation of a background update are those of the value model |
| SelfUpdate.InstallKeepsPrevious | apps/daemon/src/self_update.rs:277-390 | through every file operation of an install over the old binary, or over a missing target with it at the backup, whatever fails, the old binary is at target or backup; success is reported only with the new one at the target |
| SelfUpdate.RestoreKeepsPrevious | apps/daemon/src/self_update.rs:502-511 | through every file operation of a rollback, whatever fails, the binary to restore is at target or backup |
| SelfUpdate.StepIsSafe | apps/daemon/src/self_update.rs:452-597 | every event, and one killed after any of its file operations, keeps the previous binary and a record that names it |
| SelfUpdate.TrailKeepsPrevious | apps/daemon/src/self_update.rs:277-511 | every file operation of every event of a run leaves the previous binary at target or backup |
| SelfUpdate.StepBoundsInstalls | apps/daemon/src/self_update.rs:551-597 | every event keeps installs within one plus the rollbacks whose save was lost |
| SelfUpdate.StepBoundsBoots | apps/daemon/src/self_update.rs:452-500 | every event keeps the boots within those counted on record, those whose count was lost and those of unfinished restores |
| SelfUpdate.UpdateRunIsBounded | apps/daemon/src/self_update.rs:452-597 | a version that never becomes healthy, with any failures and kills: the previous binary is at target or backup after every file operation; at most one install more than rollbacks went unrecorded; at most `MAX_BOOT_ATTEMPTS + 1` boots an install plus one per lost count and per unfinished restore |
| SelfUpdate.FaultlessRunIsPhased | apps/daemon/src/self_update.rs:452-597 | with saves succeeding and restores finishing: at most one install, each boot counted, and the fourth boot brings the previous version back on record |
| SelfUpdate.RollbackNamesTarget | apps/daemon/src/self_update.rs:487-500 | a rollback names the failed version and the version that is now at the target |
| SelfUpdate.RestoredStays | apps/daemon/src/self_update.rs:551-597 | once a rollback is on record nothing changes the disk again |
| SelfUpdate.HealthyStays | apps/daemon/src/self_update.rs:452-533 | a version whose record is cleared is never rolled back |
| SelfUpdate.BoundsAreReached | apps/daemon/src/self_update.rs:452-597 | both bounds are reached together, for any number of lost rollbacks, lost counts and failed restores |
| UpdateLaws.StaleStart | apps/daemon/src/self_update.rs:460-467 | a start of another version than the recorded one drops the record, and that is all |
| UpdateLaws.CountedStart | apps/daemon/src/self_update.rs:468-477 | the first three starts of a new version are counted, and run |
| UpdateLaws.StrandedStart | apps/daemon/src/self_update.rs:478-486 | without a backup the next one gives up counting, and runs |
| UpdateLaws.RestoringStart | apps/daemon/src/self_update.rs:487-500 | with a backup it moves the files, skips the failed version from then on and ends; if the files cannot be moved the record stays and it runs |
| UpdateLaws.CheckMeans | apps/daemon/src/self_update.rs:551-597 | a check installs exactly a newer version that was not rolled back, if the files can be written, run and moved; the files and the record it leaves |
| UpdateLaws.TornWrite | apps/daemon/src/self_update.rs:277-303 | a write that fails leaves what it wrote beside the old binary, and changes nothing else |
| UpdateLaws.EventsGoStepwise | apps/daemon/src/self_update.rs:277-390 | every event goes by one file operation at a time, and ends with the files after the last of them |
| UpdateLaws.NoCheckTwice | apps/daemon/src/self_update.rs:723-752 | a process that has installed a version makes no more checks |
| UpdateLaws.StaysUpMeans | apps/daemon/src/self_update.rs:513-533 | a version that stays up ends the counting of its own starts, and changes nothing else |
| UpdateLaws.StayingUpHeals | apps/daemon/src/self_update.rs:513-533 | once it has stayed up on record, nothing replaces the channel version |
| UpdateLaws.OrdinaryUpdate | apps/daemon/src/self_update.rs:452-597 | a check, an end and up to three starts of which the last stays up install the channel version for good, with the previous one beside it |

## Left out

- Git, file system and subprocess calls: commits are snapshots, `git diff --name-status` has only A, M and D rows (the code throws on others), and single-file writes, removals and renames are atomic.
- A torn write of the publish marker, a crash inside `absorbPublishedVault`, and a crash inside `ingestOne` or `retractOne`: the code does not recover from these.
- `planOverride`, the injected crash, the sync adapter's own work, `rememberVaultSources`, and the names of errors that do not change the state.
- SHA-256 and the JSON of manifests are parameters (collision-free, round-tripping); JSON texts other than strings and arrays of strings are read by a parameter.
- The UTF-8 codec of file names in an archive and of checkpoint texts, and the raw inflater, are parameters; lone surrogates do not occur in the model's strings.
- Extraction, prompts, the daemon session and the model: an arbitrary compile and an arbitrary extraction result.
- The raw cache of extracted documents and the vision estimate.
- `validateSourceDiff` beyond the path rule, PII and leak patterns, copy ratios: an arbitrary verdict; lint warnings are not modelled.
- Link normalising is part of the arbitrary tidying pass of an ingest item; nested brackets can expose a new link, so no fixed point is claimed.
- In `Ingest` the index rebuild of an item is part of the arbitrary passes; `Quality` has it in full.
- Of a `sources` field that is no list: a text is visited letter by letter, as the code does; a number, `true`, or a one-line list of other things than texts makes the code throw, and cites nothing in the model.
- An absent `type`, `managed_by`, `schema_version` or `updated` prints as `undefined`, as in the code; locators other than a list of texts are printed as a list of their texts.
- `normalizeCompiledPage` is a parameter of `Quality`: what it hands to the printer is some page that cites the same keys and hashes in a list, and nothing if the file was unreadable. Redaction and the size of a text are parameters too.
- The order of items inside one phase of the queue is the order of the plan's lists; the theorems do not depend on it.
- A page `type` named like a member that every JavaScript object has, such as `constructor`, has the text of that member for its section in the code, and its own in the model.
- Numbers in a page header beyond 2^53 lose digits in the code and not in the model; a key named `__proto__` is an ordinary key in the model.
- FrontmatterTheorems.ReadsPage: speaks of headers whose bare values have no line feed; `FrontmatterRoundTrip.RoundTripIff` speaks of all.
- QualityTheorems.RebuiltIndexCleanIff: assumes no line feed in what the index prints of a page, because each further line of a summary may read as another page's entry.
- QualityTheorems.MeantIndexCleanIff: assumes the same of the pages before the rebuild.
- PageFile.RereadCitesIff: speaks of headers whose bare values have no line feed, and of `sources` that are no text.
- PageFile.DetachRetracts: tells exactly when a source is still cited for headers whose bare values have no line feed.
- QualityTheorems.GcLeavesImported: speaks of headers that fit when they are rewritten.
- QualityTheorems.RepairDischargesLint: a run whose headers do not fit can still end without a lint error, where the change is one lint does not see.
- PageFile.HeaderIsSpared: a dead link that starts in the header may also leave the sources alone; the exact condition, `LinksSpared`, compares the sources read before and after.
- A page's citation is a predicate on its text in `CompileDiff`; directories in place of files are not modelled.
- Files that git ignores are modelled in `Ingest`, `Maintainer` and `Prepare`, and not in `CompileDiff` and `Publish`.
- WikiPath.Listed: git prints a path with a quote, a tab or a line feed in C quotes, so `listWikiFilesAtCommit` does not list such a page while the directory walk does, and after absorbing one the baseline check refuses; the model lists every allowed path.
- The checkpoint's restore (`cloneBundle`, `replaceWiki`) and the runner's command line are file plumbing.
- Self-update networking, semver parsing, service managers, the smoke test's process handling and `amuxd update` run by hand: a check reaches the channel or nothing happens, and `newer` is a parameter.
- SelfUpdate.UpdateRunIsBounded: starts from a machine whose installed version has settled (no pending record).
- Failing file operations of the rotating log lose lines by design; the model's operations succeed. Reading `daemon.toml` and a change of its settings between restarts are not modelled.
- Release scripts, the Tauri shell, Expo screens, autoui-mcp, Sentry, MCP probing and HTTP clients would only add I/O plumbing.
