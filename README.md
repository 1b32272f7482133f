# Sourcegraph migrations, syntax-highlighter post-processing and two UI helpers, in Dafny

This project models six pieces of the Sourcegraph repository. Each module is written in the form its source takes.

- **The schema-migration planner** (`MigrationDefinition`). Migration definitions form a directed acyclic graph through their parent lists. The planner answers which migrations to apply: the ancestors of the targets, parents first. It also answers which to revert: the descendants of the targets, children first. It finds the common leaf dominator, filters a definition set, and reports unknown migrations. `traverse` and the loops of `Leaves`, `Filter`, `LeafDominator`, `intersect` and the in-place reversal of `Down` are methods with loop invariants. Each is proved against a specification function: reachability, selection in stored order, dominator lists.
- **The migration store** (`MigrationStore`). This is a class over the schema's version table and the shared `migration_logs` table, with one log row per attempt. `Versions` classifies every version by its latest attempt as applied, pending or failed. `validateVersion` refuses dirty schemas, re-applied ups and downs of unapplied versions. `Up`/`Down` append the attempt's log row and rewrite the version table. `EnsureSchemaTable` backfills history for the three known schemas. Lock and try-lock track whether the advisory lock is held. Database failures are parameters.
- **The runner** (`RunnerRun`, `RunnerValidate`).
  - `Run` refuses two operations on one schema.
  - `runSchema` gates on dirty state and lock contention, re-reads the versions under the lock, and rewrites *upgrade* into "up to every leaf" and *revert* into "down to the single applied leaf", which plans nothing since a down keeps its target applied. It then applies the plan until the first failure.
  - `validateSchema` decides whether the database is up to date, waiting out a concurrent migrator. The store and its locks are reached through an oracle value, and the polls of the wait loop are a parameter.
- **The LSIF syntax-highlighter post-processing** (`Lsif`, `SgTreesitter`, `TsRender`, `LsifSnapshot`).
  - `LineManager` turns offsets into line and column. The text is a string in which one character stands for one UTF-8 byte.
  - `PackedRange` packs and unpacks the three- or four-element range encoding, with its hand-written ordering.
  - Both `render` variants turn the highlighter's event stream into occurrences: the stacked one in `sg_treesitter.rs` and the single-highlight one in `ts/mod.rs`.
  - `dump_document` prints a source file with a caret annotation under every single-line occurrence.
- **`usePersistentCadence`** (`PersistentCadence`) counts page views in local storage, once per key per page load, and answers whether this view is on the cadence. The module includes JavaScript's `parseInt`, `toString` and truncating `%`.
- **`splitPath`** (`RepoFileLink`) splits a path into directory and base name, and shows how the link renders them.

Shared helpers are `Wrappers` (Option, Result) and `Decimal` (decimal rendering of integers).

Where a comment in the source and the code disagree, the model follows the code:
- `isDatabaseNewer` is documented as a numeric comparison. The code tests membership; see `RunnerValidate.NewerIsMembership`.
- `dump_document` sorts with `sort_by_key`, which compares through the hand-written `partial_cmp` on (start line, end line, start column). It does not use the derived `Ord`. See `SgTreesitter.OrderingsDisagree`.
- `LineManager::new` records line starts as lengths of the lines `str::lines` returns. For text with CRLF endings the offsets drift; see `SgTreesitter.CrlfOffsetsDrift`.

## Model

| member | source | states |
|---|---|---|
| MigrationDefinition.NewDefinitions | internal/database/migration/definition/definition.go:27-37 | the lookup map has exactly the identifiers of the slice as keys, each mapped to a definition carrying it (later duplicates win) |
| MigrationDefinition.GetByID | internal/database/migration/definition/definition.go:43-46 | found exactly when some definition has the identifier, and then returns a definition with that identifier |
| MigrationDefinition.Root | internal/database/migration/definition/definition.go:48-50 | the root is a stored definition, and it has no parents when every definition's parents precede it |
| MigrationDefinition.FirstHasNoParents | internal/database/migration/definition/definition.go:48-50 | in a topologically ordered list the first definition has no parents |
| MigrationDefinition.Children | internal/database/migration/definition/definition.go:52-63 | an identifier is a child exactly when some definition with it lists the given identifier as a parent |
| MigrationDefinition.ChildlessIff | internal/database/migration/definition/definition.go:52-63 | no children means no definition names the identifier as a parent, and conversely |
| MigrationDefinition.Leaves | internal/database/migration/definition/definition.go:52-63 | the leaves are exactly the definitions nobody lists as a parent, in stored order |
| MigrationDefinition.Filter | internal/database/migration/definition/definition.go:66-88 | fails exactly when a kept definition has a parent that is itself among the listed identifiers; otherwise the result keeps the kept definitions in stored order with a consistent map |
| MigrationDefinition.FilterWithExtraIds | internal/database/migration/definition/definition.go:66-88 | identifiers with no definition are accepted and simply select nothing |
| MigrationDefinition.FilterCapacityPanics | internal/database/migration/definition/definition.go:72 | a valid one-definition set filtered by two identifiers gives `make` the negative capacity one minus two, on which it panics |
| MigrationDefinition.BuildDominators | internal/database/migration/definition/definition.go:95-110 | the dominator map holds, for each definition, itself followed by the common dominators of its parents |
| MigrationDefinition.DominatorListOf | internal/database/migration/definition/definition.go:98-106 | a definition's dominator list is the intersection over its parents' lists, extended by its own identifier |
| MigrationDefinition.CommonLeafDominators | internal/database/migration/definition/definition.go:112-122 | the identifiers common to every leaf's dominator list, in the first leaf's order |
| MigrationDefinition.LeafLists | internal/database/migration/definition/definition.go:117-120 | one dominator list per leaf, in leaf order |
| MigrationDefinition.LeafDominator | internal/database/migration/definition/definition.go:91-127 | none exactly when the leaves share no dominator; otherwise a stored definition that dominates every leaf, the last common one |
| MigrationDefinition.CommonInEveryLeaf | internal/database/migration/definition/definition.go:91-127 | a common dominator is a defined migration on every leaf's dominator list |
| MigrationDefinition.RootDominatesAll | internal/database/migration/definition/definition.go:91-127 | in a well-formed graph the root is on every definition's dominator list |
| MigrationDefinition.LastIsLeaf | internal/database/migration/definition/definition.go:52-63 | in a well-formed graph the last definition is a leaf |
| MigrationDefinition.WellFormedHasLeafDominator | internal/database/migration/definition/definition.go:91-127 | a non-empty well-formed graph always has a leaf dominator, the root being one |
| MigrationDefinition.InitialFrontier | internal/database/migration/definition/definition.go:211-214 | the first frontier covers exactly the targets, each a witnessed node |
| MigrationDefinition.VisitRound | internal/database/migration/definition/definition.go:218-237 | one round of the breadth-first walk either stops at the first unknown node or returns the new visited set and frontier of the round function |
| MigrationDefinition.RoundOutcome | internal/database/migration/definition/definition.go:218-237 | a round keeps the explored-set invariant and strictly shrinks the unvisited set (or ends the walk); a failing round names an unknown, witnessed node, proving the graph is not closed |
| MigrationDefinition.RoundSound | internal/database/migration/definition/definition.go:218-237 | part-way through a round the visited set and new frontier stay explored and witnessed from the targets, and an error names a frontier node that has no definition |
| MigrationDefinition.RoundErrPersists | internal/database/migration/definition/definition.go:224-227 | once a node is missing, appending more frontier entries does not change the reported error |
| MigrationDefinition.WitnessedReachable | internal/database/migration/definition/definition.go:205-249 | a node witnessed on the walk is reachable from the targets |
| MigrationDefinition.SelectVisited | internal/database/migration/definition/definition.go:239-248 | the definitions visited, in stored order |
| MigrationDefinition.ToSet | internal/database/migration/definition/definition.go:139-142 | the set of the identifiers of a slice |
| MigrationDefinition.Traverse | internal/database/migration/definition/definition.go:205-249 | succeeds exactly when every reachable identifier is defined, and then returns exactly the reachable definitions in stored order; otherwise reports an undefined identifier with the parent that actually referenced it |
| MigrationDefinition.AliasedParentMisreported | internal/database/migration/definition/definition.go:218-232 | with the shared range variable, the error for an unknown parent names the round's last entry, a node that does not reference it |
| MigrationDefinition.Up | internal/database/migration/definition/definition.go:129-156 | fails exactly when an ancestor of a target is undefined; otherwise the unapplied ancestors (targets included) in stored order |
| MigrationDefinition.Down | internal/database/migration/definition/definition.go:158-199 | fails exactly when a descendant is undefined; otherwise the applied strict descendants of the targets in reverse stored order |
| MigrationDefinition.ReverseInPlace | internal/database/migration/definition/definition.go:194-196 | the array afterwards holds its old contents reversed |
| MigrationDefinition.NoTargetsNoPlan | internal/database/migration/definition/definition.go:129-199 | with no targets nothing is reachable and the plan is empty |
| MigrationDefinition.AppliedAncestorsNoPlan | internal/database/migration/definition/definition.go:129-156 | when every ancestor of the targets is applied the up plan is empty |
| MigrationDefinition.UpParentsFirst | internal/database/migration/definition/definition.go:129-156 | the up plan lists every parent before its children |
| MigrationDefinition.DownChildrenFirst | internal/database/migration/definition/definition.go:158-199 | the down plan lists every child before its parents |
| MigrationDefinition.CommonToNone | internal/database/migration/definition/definition.go:259-280 | intersecting with no other lists returns the first list unchanged |
| MigrationDefinition.Intersect | internal/database/migration/definition/definition.go:259-280 | keeps, in the first list's order, exactly the elements present in every other list |
| MigrationDefinition.UnknownMigrationMessageAsWritten | internal/database/migration/definition/definition.go:251-257 | the message starts with "unknown migration " and the identifier, and goes on past it exactly when a parent is given |
| MigrationDefinition.UnknownMigrationMessageRunsTogether | internal/database/migration/definition/definition.go:251-257 | as written, the message's identifier is followed directly by "referenced", without a space |
| MigrationDefinition.UnknownMigrationMessage | internal/database/migration/definition/definition.go:251-257 | the message starts with the identifier and, when a parent is given, continues after a space |
| MigrationStore.LatestLog | internal/database/migration/store/store.go:148-165 | the row the versions query keeps is a logged attempt of that schema and version, and there is none exactly when nothing was logged for it |
| MigrationStore.InsertSorted | internal/database/migration/store/store.go:131-143 | inserting keeps the list strictly ascending and adds exactly the new version |
| MigrationStore.LoggedVersions | internal/database/migration/store/store.go:148-165 | the versions the query groups by, ascending, exactly those with a log row in the schema |
| MigrationStore.QueryRows | internal/database/migration/store/store.go:148-165 | one row per logged version, each the latest attempt of that version |
| MigrationStore.ClassifyMembers | internal/database/migration/store/store.go:131-143 | a version lands in pending, failed or applied exactly when its row has that status |
| MigrationStore.ClassifyAscending | internal/database/migration/store/store.go:131-143 | rows in ascending version order give three ascending lists |
| MigrationStore.VersionsMeaning | internal/database/migration/store/store.go:122-165 | applied, pending and failed hold exactly the versions whose latest attempt succeeded up, is unfinished, or failed, each ascending |
| MigrationStore.VersionsDisjoint | internal/database/migration/store/store.go:122-165 | no version is in two of the three lists |
| MigrationStore.AscendingUnique | internal/database/migration/store/store.go:122-146 | two strictly ascending lists with the same members are equal |
| MigrationStore.ValidationMeaning | internal/database/migration/store/store.go:325-357 | an attempt is refused as dirty exactly when some version is pending or failed; otherwise an up is refused exactly when the version is applied and a down exactly when it is not |
| MigrationStore.Validation | internal/database/migration/store/store.go:338-356 | no refusal exactly when nothing is pending or failed and the version is unapplied for an up or applied for a down; dirty exactly when something is pending or failed; any other refusal names the version and is "already applied" exactly for an up |
| MigrationStore.RefusalText | internal/database/migration/store/store.go:338-354 | a dirty refusal starts `dirty database; pending=[`; the others start with "migration ", the version and a space, and end "is already applied" for an up or "nothing to revert" for a down |
| MigrationStore.Message | internal/database/migration/store/store.go:331-336 | a database error keeps its own text; a refusal is its text followed by a blank line, the call to report a bug, and a newline |
| MigrationStore.FormatInts | internal/database/migration/store/store.go:350-354 | a list prints bracketed, as `%v` does |
| MigrationStore.AttemptLog | internal/database/migration/store/store.go:262-271 | the attempt's row has its schema, version and direction, and reads pending when it was never finalised, failed on error, applied or reverted otherwise |
| MigrationStore.LatestLogAppend | internal/database/migration/store/store.go:148-165 | a new row changes only its own version's latest attempt, and a finished row does not displace an unfinished one |
| MigrationStore.AttemptOutcome | internal/database/migration/store/store.go:256-282 | on a clean schema, the logged attempt decides its version's status and leaves every other version's alone |
| MigrationStore.SuccessfulUpInserts | internal/database/migration/store/store.go:234-243 | after a validated, successful up, the applied list is the old one with the version inserted and nothing is dirty |
| MigrationStore.SuccessfulDownRemoves | internal/database/migration/store/store.go:245-254 | after a validated, successful down, the version was applied before and is the only one removed, and nothing is dirty |
| MigrationStore.FailedAttemptDirties | internal/database/migration/store/store.go:256-282 | a failed attempt leaves its version failed and every later attempt refused as dirty |
| MigrationStore.BackfillRun | internal/database/migration/store/store.go:81-105 | one log row per backfilled version |
| MigrationStore.BackfillRunLatest | internal/database/migration/store/store.go:81-105 | after backfilling, exactly the versions from the minimum to the recorded one have a successful up as latest attempt |
| MigrationStore.BackfillStep | internal/database/migration/store/store.go:81-105 | appending the next backfilled row extends the covered range by one version |
| MigrationStore.BackfillApplies | internal/database/migration/store/store.go:76-105 | a backfill happens only for a known schema with a clean recorded version, and then every version from the schema's minimum to the recorded one reads applied and no other version has a log |
| MigrationStore.Store.constructor | internal/database/migration/store/store.go:26-32 | a store over the given tables, not holding the lock |
| MigrationStore.Store.EnsureSchemaTable | internal/database/migration/store/store.go:57-120 | on a transaction error nothing changes; otherwise the log gains the backfill |
| MigrationStore.Store.Versions | internal/database/migration/store/store.go:122-146 | a failing versions query returns its error and no versions; otherwise the three lists are those of the query and hold exactly the applied, pending and failed versions, each ascending |
| MigrationStore.Store.ValidateVersion | internal/database/migration/store/store.go:325-357 | a failing versions query is passed on unchanged; otherwise refuses exactly as the validation rule says: dirty first, then re-applying an up or reverting an unapplied down |
| MigrationStore.Store.RunMigrationQuery | internal/database/migration/store/store.go:256-329 | a failing versions query or a refused attempt changes nothing and returns that error; otherwise the version table records the version, dirty exactly on failure, and one log row records the outcome |
| MigrationStore.Store.Up | internal/database/migration/store/store.go:234-243 | an up attempt of the definition, as the migration query describes |
| MigrationStore.Store.Down | internal/database/migration/store/store.go:245-254 | a down attempt of the definition, as the migration query describes |
| MigrationStore.Store.Lock | internal/database/migration/store/store.go:173-194 | the lock is taken unless the query fails, in which case nothing changes |
| MigrationStore.Store.ReleaseLock | internal/database/migration/store/store.go:185-191 | the unlock error, if any, is appended to the caller's errors; on success the lock is free |
| MigrationStore.Store.TryLock | internal/database/migration/store/store.go:204-228 | the lock is taken exactly when it was available and the query succeeded |
| MigrationStore.Store.ReleaseTryLock | internal/database/migration/store/store.go:217-225 | releases only a lock that was acquired, appending any unlock error |
| RunnerRun.NameSetSize | internal/database/migration/runner/run.go:42-48 | a list has as many distinct schema names as entries exactly when no name repeats |
| RunnerRun.Run | internal/database/migration/runner/run.go:36-68 | fails with "multiple operations" exactly when a schema is named twice; the map holds every named schema, with the last operation for it |
| RunnerRun.RunUntilFailure | internal/database/migration/runner/run.go:197-203 | the run is a prefix of the plan in which only the last migration may have failed, and it stops early only at a failure |
| RunnerRun.RunUntilFailureAt | internal/database/migration/runner/run.go:197-203 | when exactly the first i migrations succeed, the run is them plus the failing one |
| RunnerRun.ApplyPlan | internal/database/migration/runner/run.go:197-203 | applies the plan in order, stopping at and reporting the first failure |
| RunnerRun.RunSchemaUp | internal/database/migration/runner/run.go:189-206 | a planning error runs nothing; otherwise the up plan runs in order until its first failure |
| RunnerRun.RunSchemaDown | internal/database/migration/runner/run.go:208-225 | a planning error runs nothing; otherwise the down plan runs in order until its first failure |
| RunnerRun.FirstUndefined | internal/database/migration/runner/run.go:151-155 | none exactly when every applied version is defined; otherwise an applied version without a definition |
| RunnerRun.RevertPlansNothing | internal/database/migration/runner/run.go:144-175 | when the applied versions include the parents of every applied version, the down plan for the single revert target is empty, so a revert undoes nothing |
| RunnerRun.RevertReach | internal/database/migration/runner/run.go:144-175 | the only applied version that the revert target reaches toward its children is the target itself |
| RunnerRun.IntendedRevertUndoesLeaf | internal/database/migration/runner/run.go:144-175 | planning the applied versions the target reaches, the target included, undoes exactly the target |
| RunnerRun.DefinitionLookup | internal/database/migration/runner/run.go:151 | with distinct identifiers, looking a stored definition up by its identifier gives it back |
| RunnerRun.RevertTargets | internal/database/migration/runner/run.go:144-169 | an undefined applied version is reported; otherwise the revert target is the single applied migration no applied migration builds on, and anything else is ambiguous |
| RunnerRun.ZeroCountsAreCandidates | internal/database/migration/runner/run.go:145-166 | the versions whose parent count stays zero are exactly the applied migrations no applied migration lists as a parent |
| RunnerRun.CountParents | internal/database/migration/runner/run.go:151-160 | counting one more applied migration's parents keeps the count-is-zero-iff-unlisted invariant |
| RunnerRun.CompareSchemaVersions | internal/database/migration/runner/run.go:227-232 | two version snapshots compare equal exactly when all three lists are equal |
| RunnerRun.RunLocked | internal/database/migration/runner/run.go:110-186 | under the lock: a read error, contention (for everything but upgrade) and a dirty schema each stop the run; otherwise the rewritten operation is planned from the versions re-read under the lock and run. For everything but an upgrade the contention check makes these the versions read before the lock, which run.go:192 and run.go:211 plan from; for an upgrade this is the corrected planning, and RunnerRun.UpgradePlanAsWritten and RunnerRun.StaleUpgradePlanRefused model the upgrade plan as written |
| RunnerRun.RunSchema | internal/database/migration/runner/run.go:70-187 | except for upgrades, failed versions stop the run at once and pending ones report dirty (or contention when the try-lock is taken elsewhere); otherwise the lock is taken, the locked part runs and the lock is released; as written, a failure to unlock is never reported, because both deferred `err = unlock(err)` closures assign to an `err` declared inside the `if`. The locked part is RunnerRun.RunLocked, so an upgrade is planned from the versions re-read under the lock, not, as run.go:192 does, from those read before it |
| RunnerRun.RunSchemaReportingUnlock | internal/database/migration/runner/run.go:70-187 | the intended `runSchema`: the same outcomes, except that after a taken lock or try-lock a failure to unlock is appended as the last error |
| RunnerRun.UpgradePlanAsWritten | internal/database/migration/runner/run.go:131-142 | the upgrade plan as written: the migrations up to every leaf, minus the snapshot's applied list read before the lock |
| RunnerRun.StaleUpgradePlanRefused | internal/database/migration/runner/run.go:114-122 | a migration applied by a concurrent migrator while this runner waited stays in the stale plan and the store refuses it as already applied |
| RunnerRun.FreshPlanPassesValidation | internal/database/migration/runner/run.go:189-206 | every migration of an up plan computed from the versions read under the lock passes the store's validation |
| RunnerValidate.IsDatabaseNewer | internal/database/migration/runner/validate.go:128-141 | true exactly when every defined migration is in the applied list |
| RunnerValidate.NewerIsMembership | internal/database/migration/runner/validate.go:126-141 | a database whose applied version exceeds every definition is still not "newer" |
| RunnerValidate.CompareVersionSlice | internal/database/migration/runner/validate.go:143-155 | two lists compare equal exactly when they are equal |
| RunnerValidate.IdList | internal/database/migration/runner/validate.go:77-80 | the identifiers of the definitions, position by position |
| RunnerValidate.CollectIDs | internal/database/migration/runner/validate.go:77-80 | collects the identifiers of the definitions in order |
| RunnerValidate.WaitForMigration | internal/database/migration/runner/validate.go:90-112 | a clean schema returns at once; otherwise the result is the first clean read, a read error, or the dirty state after the retries, each taken from the poll that produced it |
| RunnerValidate.EmptyDefinitionsPlan | internal/database/migration/runner/validate.go:16-85 | with no definitions there are no leaves and planning cannot fail |
| RunnerValidate.ValidateSchema | internal/database/migration/runner/validate.go:16-85 | up to date when everything is applied; otherwise a read error, an out-of-date schema with its missing migrations, or a dirty database, exactly as the versions after waiting decide |
| SgTreesitter.GetSyntaxKindForHl | docker-images/syntax-highlighter/sg-syntax/sg_treesitter.rs:28-61 | every highlight gets one of the nine emitted kinds, never the method-identifier kind |
| SgTreesitter.TableKindsReached | docker-images/syntax-highlighter/sg-syntax/sg_treesitter.rs:28-61 | each of the nine emitted kinds is the kind of some configured highlight, so they are exactly the kinds the table can return |
| SgTreesitter.LineEnd | docker-images/syntax-highlighter/sg-syntax/sg_treesitter.rs:134-143 | the position of the first newline, or the length when there is none |
| SgTreesitter.RustLines | docker-images/syntax-highlighter/sg-syntax/sg_treesitter.rs:134-143 | `str::lines` returns no lines exactly for the empty text, and each line is no longer than the text |
| SgTreesitter.LineStartsShape | docker-images/syntax-highlighter/sg-syntax/sg_treesitter.rs:134-143 | each recorded line start is the previous one plus the line length plus one, ascending from the start |
| SgTreesitter.NewLineManager | docker-images/syntax-highlighter/sg-syntax/sg_treesitter.rs:134-143 | the line manager records the start offset of every line |
| SgTreesitter.LineStartsLocated | docker-images/syntax-highlighter/sg-syntax/sg_treesitter.rs:134-143 | without carriage returns, every recorded offset is exactly where its line sits in the text |
| SgTreesitter.CrlfOffsetsDrift | docker-images/syntax-highlighter/sg-syntax/sg_treesitter.rs:134-143 | with a CRLF ending, the recorded start of the second line points at the newline, not at the line |
| SgTreesitter.LineCol | docker-images/syntax-highlighter/sg-syntax/sg_treesitter.rs:145-158 | the line is the last one starting at or before the offset, and line start plus column is the offset |
| SgTreesitter.LineColMonotone | docker-images/syntax-highlighter/sg-syntax/sg_treesitter.rs:145-158 | a later offset never maps to an earlier line, or to an earlier column on the same line |
| SgTreesitter.LineAndCol | docker-images/syntax-highlighter/sg-syntax/sg_treesitter.rs:145-158 | the scan returns the line and column of the offset |
| SgTreesitter.Pack | docker-images/syntax-highlighter/sg-syntax/sg_treesitter.rs:160-176 | a range packs to three integers exactly when it starts and ends on the same line, to four otherwise |
| SgTreesitter.Range | docker-images/syntax-highlighter/sg-syntax/sg_treesitter.rs:160-176 | the packed range of the two offsets' line and column |
| SgTreesitter.FromVec | docker-images/syntax-highlighter/sg-syntax/sg_treesitter.rs:188-206 | unpacks exactly the three- and four-element encodings |
| SgTreesitter.RangeRoundTrip | docker-images/syntax-highlighter/sg-syntax/sg_treesitter.rs:160-206 | unpacking a packed range gives back its positions as 32-bit integers, and exactly the positions when they fit |
| SgTreesitter.PackInjective | docker-images/syntax-highlighter/sg-syntax/sg_treesitter.rs:160-176 | positions that fit in 32 bits pack to the same encoding only when they are equal |
| SgTreesitter.LexEqual | docker-images/syntax-highlighter/sg-syntax/sg_treesitter.rs:209-217 | lexicographic comparison is equal exactly on equal keys |
| SgTreesitter.LexFlip | docker-images/syntax-highlighter/sg-syntax/sg_treesitter.rs:209-217 | swapping the arguments swaps less and greater |
| SgTreesitter.LexTransitive | docker-images/syntax-highlighter/sg-syntax/sg_treesitter.rs:209-217 | lexicographic "less" is transitive |
| SgTreesitter.PartialCmp | docker-images/syntax-highlighter/sg-syntax/sg_treesitter.rs:209-217 | the hand-written order compares start line, end line, start column, and is equal exactly when those agree |
| SgTreesitter.Cmp | docker-images/syntax-highlighter/sg-syntax/sg_treesitter.rs:179-186 | the derived order compares the fields in declaration order, equal exactly on equal ranges |
| SgTreesitter.PartialCmpTransitive | docker-images/syntax-highlighter/sg-syntax/sg_treesitter.rs:209-217 | the hand-written "less" is transitive |
| SgTreesitter.CmpTransitive | docker-images/syntax-highlighter/sg-syntax/sg_treesitter.rs:179-186 | the derived "less" is transitive |
| SgTreesitter.PartialCmpIgnoresEndCol | docker-images/syntax-highlighter/sg-syntax/sg_treesitter.rs:209-217 | the hand-written order never looks at the end column |
| SgTreesitter.OrderingsDisagree | docker-images/syntax-highlighter/sg-syntax/sg_treesitter.rs:179-217 | the two orders rank some ranges oppositely, and the hand-written one calls distinct ranges equal |
| SgTreesitter.Render | docker-images/syntax-highlighter/sg-syntax/sg_treesitter.rs:230-309 | the event loop renders the document of the stack semantics: an occurrence per source span under an open highlight, kind from the innermost one; an end with nothing open pops nothing; an error is returned as is; a highlight past the table, or a span over text without lines, panics |
| SgTreesitter.StackRunStopsAtErr | docker-images/syntax-highlighter/sg-syntax/sg_treesitter.rs:245-272 | events after the first highlighter error are never looked at, and the result is that error or an earlier panic |
| SgTreesitter.UnhighlightedSourceEmitsNothing | docker-images/syntax-highlighter/sg-syntax/sg_treesitter.rs:253-255 | a span outside any highlight emits no occurrence |
| SgTreesitter.RenderPanics | docker-images/syntax-highlighter/sg-syntax/sg_treesitter.rs:230-309 | a highlight index past the table, and a span over empty text, panic |
| SgTreesitter.StackRunWellFormed | docker-images/syntax-highlighter/sg-syntax/sg_treesitter.rs:245-272 | for ordered spans every emitted range is a valid packed range that starts no later than it ends |
| SgTreesitter.RenderWellFormed | docker-images/syntax-highlighter/sg-syntax/sg_treesitter.rs:230-309 | for ordered spans every occurrence of a rendered document has a well-formed range |
| Lsif.KindName | docker-images/syntax-highlighter/src/bin/lsif-snapshot.rs:41-46 | every kind prints a non-empty name |
| Lsif.AsI32 | docker-images/syntax-highlighter/sg-syntax/sg_treesitter.rs:160-176 | the cast gives a 32-bit value and keeps every value below 2^31 |
| Lsif.AsI32Congruent | docker-images/syntax-highlighter/sg-syntax/sg_treesitter.rs:160-176 | the cast keeps the value modulo 2^32 |
| TsRender.TablesAligned | docker-images/syntax-highlighter/src/ts/mod.rs:13-77 | both tables have twenty entries |
| TsRender.CommentKindsDiffer | docker-images/syntax-highlighter/src/ts/mod.rs:13-77 | "comment" maps to an unspecified kind here and to Comment in the other emitter |
| TsRender.Render | docker-images/syntax-highlighter/src/ts/mod.rs:152-242 | the event loop renders the document of the single-highlight semantics |
| TsRender.UnbalancedPanics | docker-images/syntax-highlighter/src/ts/mod.rs:165-176 | a nested start and an end without a start both panic |
| TsRender.RunsAgree | docker-images/syntax-highlighter/src/ts/mod.rs:165-205 | where the single-highlight loop does not panic, the stacked loop fails the same way or renders as many occurrences |
| TsRender.RendersAgree | docker-images/syntax-highlighter/src/ts/mod.rs:152-242 | for non-empty text the two emitters agree on failure and on the number of occurrences whenever this one does not panic |
| LsifSnapshot.Insert | docker-images/syntax-highlighter/src/bin/lsif-snapshot.rs:8-12 | inserting adds exactly one occurrence |
| LsifSnapshot.SortByRange | docker-images/syntax-highlighter/src/bin/lsif-snapshot.rs:8-12 | sorting is a permutation |
| LsifSnapshot.InsertSorted | docker-images/syntax-highlighter/src/bin/lsif-snapshot.rs:8-12 | inserting into a sorted list keeps it sorted |
| LsifSnapshot.SortSorted | docker-images/syntax-highlighter/src/bin/lsif-snapshot.rs:8-12 | the result is sorted by the range order |
| LsifSnapshot.SortedLinesAscend | docker-images/syntax-highlighter/src/bin/lsif-snapshot.rs:8-37 | in a sorted queue start lines never decrease |
| LsifSnapshot.TakeLine | docker-images/syntax-highlighter/src/bin/lsif-snapshot.rs:24-37 | the taken occurrences are all annotatable, and the queue left over is no longer and starts with a printable occurrence of another line |
| LsifSnapshot.TakeLineSuffix | docker-images/syntax-highlighter/src/bin/lsif-snapshot.rs:24-37 | the queue left over is a suffix of the queue |
| LsifSnapshot.ReplaceTabs | docker-images/syntax-highlighter/src/bin/lsif-snapshot.rs:21 | each tab becomes one space, everything else stays, and no tab is left |
| LsifSnapshot.AnnotationShape | docker-images/syntax-highlighter/src/bin/lsif-snapshot.rs:39-46 | an annotation is `//`, spaces up to the start column, carets up to the end column, then the kind name |
| LsifSnapshot.AnnotationTextShape | docker-images/syntax-highlighter/src/bin/lsif-snapshot.rs:41-46 | the layout of the annotation format string |
| LsifSnapshot.DumpLines | docker-images/syntax-highlighter/src/bin/lsif-snapshot.rs:19-48 | the loop over the lines produces the dump of the sorted queue |
| LsifSnapshot.AnnotateLine | docker-images/syntax-highlighter/src/bin/lsif-snapshot.rs:24-47 | the inner loop annotates exactly the occurrences it takes and leaves the rest queued |
| LsifSnapshot.DumpDocument | docker-images/syntax-highlighter/src/bin/lsif-snapshot.rs:7-51 | the snapshot shows every line followed by the annotations of the printable occurrences starting on it |
| LsifSnapshot.OnLineMembers | docker-images/syntax-highlighter/src/bin/lsif-snapshot.rs:24-37 | an occurrence is annotated on a line exactly when it is printable and starts there |
| LsifSnapshot.TakeLineTakes | docker-images/syntax-highlighter/src/bin/lsif-snapshot.rs:24-37 | on a sorted queue, the inner loop takes exactly the occurrences of its line |
| LsifSnapshot.TakeLineKeeps | docker-images/syntax-highlighter/src/bin/lsif-snapshot.rs:24-37 | what the loop leaves queued still holds every occurrence of the later lines |
| LsifSnapshot.TakeLinePasses | docker-images/syntax-highlighter/src/bin/lsif-snapshot.rs:24-37 | after a line, nothing for that line or earlier is left queued |
| LsifSnapshot.DumpFromIsSnapshot | docker-images/syntax-highlighter/src/bin/lsif-snapshot.rs:19-48 | the queue-driven loop prints the same text as annotating each line with its own occurrences |
| LsifSnapshot.DumpIsSnapshot | docker-images/syntax-highlighter/src/bin/lsif-snapshot.rs:7-51 | the queue-driven dump equals the per-line specification for any occurrences |
| LsifSnapshot.SortKeepsLines | docker-images/syntax-highlighter/src/bin/lsif-snapshot.rs:8-12 | sorting keeps the same occurrences on every line |
| LsifSnapshot.InsertKeepsLines | docker-images/syntax-highlighter/src/bin/lsif-snapshot.rs:8-12 | inserting adds the occurrence to its own line only |
| LsifSnapshot.OnLineAppend | docker-images/syntax-highlighter/src/bin/lsif-snapshot.rs:24-37 | a line's occurrences of a concatenation are those of each part |
| PersistentCadence.TrimStart | client/web/src/hooks/usePersistentCadence.ts:5 | `parseInt` skips leading white space: the result is a suffix that does not start with white space |
| PersistentCadence.DigitPrefix | client/web/src/hooks/usePersistentCadence.ts:5 | the longest run of leading digits |
| PersistentCadence.ParseInt | client/web/src/hooks/usePersistentCadence.ts:5 | `parseInt` is NaN exactly when no digit follows the white space and sign |
| PersistentCadence.StoredCount | client/web/src/hooks/usePersistentCadence.ts:5 | a missing key counts as zero views |
| PersistentCadence.TruncRem | client/web/src/hooks/usePersistentCadence.ts:8 | JavaScript's `%` is zero exactly when the Euclidean remainder is, and takes the sign of the dividend |
| PersistentCadence.RemOfAbs | client/web/src/hooks/usePersistentCadence.ts:8 | divisibility does not depend on the signs |
| PersistentCadence.CadenceTracker.constructor | client/web/src/hooks/usePersistentCadence.ts:1 | a page load starts with the given storage and no key counted yet |
| PersistentCadence.CadenceTracker.UsePersistentCadence | client/web/src/hooks/usePersistentCadence.ts:3-13 | the first call for a key in a page load increments the stored count and answers from the old count; later calls change nothing and answer from the remembered count |
| PersistentCadence.CadenceTracker.Reset | client/web/src/hooks/usePersistentCadence.ts:15-17 | forgets which keys were counted |
| PersistentCadence.ParseIntToString | client/web/src/hooks/usePersistentCadence.ts:5-6 | `parseInt` reads back what `toString` wrote |
| PersistentCadence.StoredCountAdvances | client/web/src/hooks/usePersistentCadence.ts:4-7 | each page load adds exactly one view to the key |
| PersistentCadence.ReadBack | client/web/src/hooks/usePersistentCadence.ts:5-6 | a written count is read back unchanged |
| PersistentCadence.OtherKeysUntouched | client/web/src/hooks/usePersistentCadence.ts:4-7 | counting one key leaves every other key's count alone |
| PersistentCadence.FirstViewShows | client/web/src/hooks/usePersistentCadence.ts:5-8 | the first view ever is on the cadence |
| PersistentCadence.Write | client/web/src/hooks/usePersistentCadence.ts:6 | writing stores the key |
| PersistentCadence.SessionsCount | client/web/src/hooks/usePersistentCadence.ts:4-8 | after i page loads the count has grown by i |
| PersistentCadence.CtaEveryFifthView | client/web/src/search/results/StreamingSearchResults.tsx:75-76 | with a cadence of five, starting from no stored count, the alerts show on exactly every fifth page load, the first included |
| RepoFileLink.Split | client/shared/src/components/RepoFileLink.tsx:10 | `split('/')` gives at least one piece, none containing a slash |
| RepoFileLink.JoinSplit | client/shared/src/components/RepoFileLink.tsx:10-11 | joining the pieces with slashes gives back the path |
| RepoFileLink.SplitCount | client/shared/src/components/RepoFileLink.tsx:10 | there are at least two pieces exactly when the path has a slash |
| RepoFileLink.BaseIsLastComponent | client/shared/src/components/RepoFileLink.tsx:9-12 | the base name is the slash-free tail of the path, preceded by a slash when shorter than the path |
| RepoFileLink.SplitPath | client/shared/src/components/RepoFileLink.tsx:9-12 | the file name holds no slash; a path without a slash is all file name with an empty directory, and with one, directory, slash and file name rebuild the path |
| RepoFileLink.DirBeforeLastSlash | client/shared/src/components/RepoFileLink.tsx:9-12 | the directory is the path up to its last slash |
| RepoFileLink.Displayed | client/shared/src/components/RepoFileLink.tsx:35-41 | the link text is the path itself, or the path less a leading slash |
| RepoFileLink.DisplayedIsPath | client/shared/src/components/RepoFileLink.tsx:35-41 | the link shows the full path unless the only slash leads it |
| RepoFileLink.LeadingSlashDropped | client/shared/src/components/RepoFileLink.tsx:35-41 | a path "/a" is shown as "a": the leading slash is lost |
| Decimal.NatToString | internal/database/migration/definition/definition.go:254-256 | decimal digits without a leading zero |
| Decimal.NatToStringRoundTrip | internal/database/migration/definition/definition.go:254-256 | the digits read back as the number |
| Decimal.IntToString | internal/database/migration/definition/definition.go:253-256 | non-empty text that starts with '-' exactly for a negative number, with digits after the sign |
| Decimal.IntToStringRoundTrip | internal/database/migration/definition/definition.go:253-256 | the text is digits, after a '-' for a negative number, and they read back as the magnitude |

## Left out

- SQL text, transactions, the observation and logging wrappers, and `log15`/`println` output are left out. Each query is modelled by its effect on the version table and the log table. Database errors are parameters, including the versions query that `Versions` and `validateVersion` pass on.
- The advisory-lock key hashing (`lockKey`) and the lock's sharing between processes are left out. The lock is a flag, and availability is a parameter.
- `createMigrationLog` is modelled through the versions-query error, the refusal and the log row it appends. Errors from opening the transaction, the version-table `DELETE`/`INSERT` and the log insert are not modelled.
- MigrationStore.Backfill reads the version table through its first row, as the `LIMIT 1` query of `EnsureSchemaTable` does. A table with several rows, which the source never writes, is not modelled.
- MigrationStore.LatestLog assumes attempts finish in the order they are logged, so the latest `finished_at` is the last finished row. Among several unfinished rows, whose order the query leaves to the database, it takes the last one logged.
- `Run` starts one goroutine per schema under a semaphore. The model runs one schema at a time; concurrency between schemas and `forEachSchema` are not modelled.
- RunnerRun.RunSchema plans an upgrade from the versions re-read under the lock (RunnerRun.RunLocked), not from those read before the lock as run.go:192 does. The stale plan of the source is modelled separately by RunnerRun.UpgradePlanAsWritten and RunnerRun.StaleUpgradePlanRefused (see Findings).
- RunnerValidate.WaitForMigration requires that the given polls do not run out before the loop stops. Each poll stands for one `lockedVersion` call; the blocking wait for the advisory lock (`pg_advisory_lock`) inside it, which is what paces the loop while a migrator holds the lock, and context cancellation are not modelled.
- RunnerValidate.ValidateSchema carries the same requirement on its polls.
- MigrationDefinition.Root requires a non-empty definition list. The source panics on an empty one.
- SgTreesitter.GetSyntaxKindForHl requires an index inside the table. The source panics otherwise, and `render` models that panic itself.
- LsifSnapshot.DumpDocument requires every range to be a well-formed packed range. The source panics on a malformed one (an index past the vector, or a negative length cast).
- LsifSnapshot.DumpIsSnapshot is stated for up to 2^31 lines. Past that the `idx as i32` cast wraps, so the dump and the per-line specification differ.
- LsifSnapshot.SortByRange is an insertion sort. Rust's `sort_by_key` is a stable merge sort; both are stable sorts by the same total preorder, so they give the same order.
- TsRender.RunsAgree compares the two emitters by outcome and occurrence count, not by range and kind. The class tables differ on purpose (TsRender.CommentKindsDiffer).
- Tree-sitter parsing, the highlight configurations, the protobuf `Document` type, the JSON and HTTP server and the snapshot binary's `main` file I/O are left out. The highlighter's event stream is an input.
- JavaScript numbers are modelled as unbounded integers. Floating point, `NaN` other than through `|| 0`, and exponent notation in `toString` are not modelled.
- Text is a string of characters, each standing for one UTF-8 byte. The byte offsets of `LineManager` and of the highlighter's events are character positions here, and multi-byte characters are not modelled.
- React rendering is reduced to the text the file link shows (RepoFileLink.Displayed).

## Findings

| source | as written | input that shows it | evidently intended | confidence | as-written member | corrected member |
|---|---|---|---|---|---|---|
| internal/database/migration/definition/definition.go:256 | the format string has no space before "referenced" | identifier 10 referenced from 9 prints "unknown migration 10referenced from migration 9" | a space between the identifier and "referenced" | not executed | MigrationDefinition.UnknownMigrationMessageRunsTogether | MigrationDefinition.UnknownMigrationMessage |
| internal/database/migration/definition/definition.go:72 | capacity `len(ds.definitions)-len(ids)` is negative when more identifiers than definitions are passed, and `make` panics | one definition, identifiers [1, 2] | a non-negative capacity (or none), so extra identifiers select nothing | not executed | MigrationDefinition.FilterCapacityPanics | MigrationDefinition.Filter |
| internal/database/migration/definition/definition.go:218-232 | `&n.id` takes the address of the range variable, which Go before 1.22 shares across iterations, so every node pushed in a round names the round's last entry as its parent | definitions 1 (parents [99]) and 2 (no parents), targets [1, 2]: the error names 2, not 1, as the referrer of 99 | the error names the migration that lists the unknown parent | not executed (assumes a Go release before 1.22) | MigrationDefinition.AliasedParentMisreported | MigrationDefinition.Traverse |
| internal/database/migration/runner/run.go:131-142 | the upgrade plan is computed from the applied list read before the lock, while contention is not checked for upgrades | a single migration 1, pending before the lock and applied by another migrator while this one waited: the plan still holds 1 and the store refuses it as already applied | plan from the versions re-read under the lock | not executed | RunnerRun.StaleUpgradePlanRefused | RunnerRun.RunLocked |
| internal/database/migration/runner/run.go:87-107 | `acquired, unlock, err := ...` inside the `if` blocks declares a new `err`, so the deferred `err = unlock(err)` updates that variable and not the named result | a targeted up on a schema with a pending version, the try-lock acquired and the unlock failing with "x": `runSchema` returns the dirty-database error alone and "x" is lost | the unlock failure is reported with the function's result | not executed | RunnerRun.RunSchema | RunnerRun.RunSchemaReportingUnlock |
| internal/database/migration/runner/run.go:144-175 | a revert becomes a targeted down to the single applied leaf, and the down plan holds only the strict descendants of its targets, which a leaf does not have | definitions 1 and 2, where 2 lists 1 as its parent, both applied: the revert targets 2 and plans nothing | undo the leaf: the plan holds the target itself | not executed | RunnerRun.RevertPlansNothing | RunnerRun.IntendedRevertUndoesLeaf |
