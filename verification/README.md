# Pindoc state machines, verified

A Dafny model of the parts of Pindoc whose promises span operations, runs or
interleavings, with proofs. `dafny verify dfyconfig.toml` checks all of it.

SQL tables are maps and sequences, a committed transaction is one step, and a run
is a fold over a list of events, so every main result speaks about every
interleaving of every length. Code that updates things in place is written as
methods and classes and proved against the functions the results are about.

| file | what it models |
|---|---|
| `RevisionMeta` | metadata folded from the revision log, and the one-pass delta between two revisions |
| `Acceptance`, `AcceptanceTexts` | the two acceptance-checkbox counters: the claimed_done gate's, and the one by which edits claim done; the same by text |
| `RevisionLog`, `WriterLaws`, `RevisionRuns`, `ArtifactTables` | the artifact revision log: what each writer reads and commits, when it is refused, all interleavings of them, the rows they update, the history view |
| `MetaFolds`, `MetaBadges`, `MetaWrites` | the metadata readers fold from the log, against the head's and against what writers sent, and the badge that says whether a row changed any |
| `Migrations`, `MigrationHealth` | the migration runner as a lock protocol with crashes, and the independent health check |
| `BodyChunks`, `ChunkTexts`, `SearchIndex`, `IndexRuns` | heading chunks, the embedding index as a cache, and `pindoc-reembed` as its repair loop |
| `ArtifactLinks`, `LinkPositions`, `LinkTexts`, `LinkSecondPass` | the `pindoc://` link rewriter, what it captures said by position and by text, and why one pass is enough |
| `ChangeGroups`, `ChangeGroupRuns`, `ChangeGroupTables`, `ChangeGroupLaws` | folding revisions into ranked change groups, and what the groups say of the rows |
| `RateLimiter`, `LimiterClocks`, `LimiterBound` | the sliding-window limiter on client registration, and the clocks over which it decides like a full history and keeps its bound |
| `ConsentNonces` | one-time consent nonces and the scope lists they are compared by |
| `ArtifactPages`, `PageWalks` | one artifact page by cursor, and a client following next_cursor while rows are updated |
| `PercentCoding`, `ReaderRoutes` | the Reader's path printer and parser, down to percent-encoded UTF-8 |
| `Strings`, `Sorting`, `Wrappers`, `Hashing` | white space, string order, sorting, optional values and digests, shared |

## Assumptions

- (artifact, revision number) is unique, a transaction commits atomically or not at all, and every
  body change appends a revision. `RevisionRuns.FirstRevisionIsNeeded` shows the last one is needed.
- A crash drops the session's advisory lock and rolls back its open transaction.
- SHA-256 is injective, and so are JSON and base64 as carriers of a value. Consent tokens are fresh.
- The clock, random tokens, provider answers, link resolution and the verdict of a date parser are parameters.
- A provider embeds each named model's texts deterministically, text by text.
- Group identifiers, 64 bits of a digest, do not collide.

## Where the code does less than one would hope

- Not every write of task_meta is logged. An edit or an acceptance transition that leaves an open Task with
  all its checkboxes resolved claims done by itself, `pindoc.task.claim_done` always does, an edit that sends
  task_meta replaces it, and creation stores it, all without a logged cell; a meta patch sent for an artifact
  that is not a Task is logged and not stored. A reader's fold is the head's value of a key at every moment of
  a run exactly when the artifact was created without the key and no such silent write of it is committed
  (`FoldsWhileNothingIsSilent`, with `SilentWrites` for which these are), and at the end of a run exactly when
  the key has not drifted (`FoldsUnlessDrifted`). Without replaced task_meta only the status is at stake,
  and it is the head's exactly when the latest status write was logged (`TaskMetaFolds`).
- An edit can store a JSON null for a cleared assignee; readers of either side take it for an absent key.
- Two writers log a claim of done: the task lane, behind its gate, and the sweeper that a ping sets off, behind
  the checkbox counter of the other tools. That counter reads boxes the gate does not, and passes over those with
  a form feed or carriage return before the bracket, which the gate reads. So a revision that claims done
  rebuilds to a body with no open checkbox exactly when that body hides none in this way
  (`EveryLoggedClaimRebuildsResolved`); `SweeperPassesThisBody` shows a claim over one that does.
- The sweeper's message begins with "auto:" and the history view looks for "Auto:", so its rows show as plain
  metadata changes (`SweepShowsAsMetadata`).
- A row shown as "no metadata change" has an empty delta exactly when the payload of the row before it did not
  override that row's tags or completeness columns (`UnbadgedMeansEmptyDelta`). Every row the writers store
  meets this, so on the logs they produce such a row never hides a change (`UnbadgedRowsAreQuiet`); a row that
  does not, as `ColumnsCanBeOverridden` describes, would have to come from elsewhere.
- A blank checksum made of tabs or newlines is blank to the runner but not to its backfill, so the health
  check still reports it after a successful run (`HealthyAfterNil`, and `TabStaysUnhealthy` for a run).
- Group identifiers carry the window start to the second, so groups span less than their window exactly
  for windows of a second or more (`SpansFitFromASecond`).
- The limiter reads its clock before it takes its lock. It decides like the full history exactly over clocks
  that settle: once some reading is a window past an earlier one, no later reading is back within that window
  (`SettlingIsExact`). It keeps its bound exactly over clocks that are tight: then no later reading comes within
  a window of that earlier one (`TightIsExact`). Clocks that never go back settle, and clocks that settle are
  tight (`ForwardSettles`, `SettlingIsTight`).
- A colon in a session's name can file its turns with another session's (`ColonsMeet`, and `TurnsApart` for names
  without one).
- A Reader path for an org named "p", or for an empty project, does not read back (`PathRoundTrips`).
- The comment on the gate's checkbox expression calls it the same as the diff view's; they differ after the
  closing bracket, and only the gate's is modelled.

## A comparison in isolation

Scope lists of consent nonces are compared joined by NUL. Of itself that comparison is not one of scope sets: it
takes another set for the requested one exactly when the request asks for two or more scopes, which are joined
like one scope that holds NULs, or for a single scope with a NUL between two proper scopes in order
(`BlurredIsExact`). Both handlers pass on supported scopes only, which hold no NUL, so in every run of requests
an accepted nonce is one for the same scopes (`AcceptedWasCreated`).

## Model

| member | source | states |
|---|---|---|
| `RevisionMeta.MetaDeltaForRange` | internal/pindoc/diff/meta.go:42-101 | the single pass over the log sorted in place returns the key-wise difference of the states folded to the two revisions, in strict key order, and nothing for a reversed range |
| `RevisionMeta.ApplyField` | internal/pindoc/diff/meta.go:52-68 | the running changes map always says how each field moved since the base state |
| `RevisionMeta.DeltaUnique` | internal/pindoc/diff/meta.go:42-101 | two states have one difference, so its description fixes the result |
| `RevisionMeta.InputOrderIrrelevant` | internal/pindoc/diff/meta.go:42-50 | with distinct revision numbers the order of the input does not matter |
| `RevisionMeta.DeltasCompose` | internal/pindoc/diff/meta.go:42-101 | delta(a,c) is delta(a,b) followed by delta(b,c), dropping fields that came back |
| `RevisionMeta.FlattenTaskCell` | internal/pindoc/diff/meta.go:124-146 | a task_meta cell appears under its dotted key and nothing else does |
| `RevisionMeta.FlattenHas` | internal/pindoc/diff/meta.go:124-146 | a payload says task_meta.k and artifact_meta.k exactly when its object of that name has k, with that value |
| `RevisionMeta.TagsRead` | internal/pindoc/diff/meta.go:181-199 | a tag list reads as one string for each tag in its place, and two different lists read differently |
| `RevisionMeta.BadgedWhen` | internal/pindoc/diff/meta.go:106-118 | a row shows a metadata change exactly when a column moved, its payload says something of the metadata, or it is a metadata row |
| `RevisionMeta.ClassifiedAs` | internal/pindoc/diff/meta.go:150-170 | which rows show as acceptance toggle, mixed, text edit and system change, by their shape, message and changes |
| `MetaWrites.ArtifactMetaReads` | internal/pindoc/mcp/tools/artifact_propose_meta_patch.go:194-262 | over every run, after a commit each artifact_meta field reads as the value the write sent, and as before where it sent none |
| `MetaWrites.ColumnsRead` | internal/pindoc/diff/meta.go:52-68 | over every run, after a commit tags and completeness read as the row stores them |
| `RevisionMeta.UnbadgedMeansEmptyDelta` | internal/pindoc/diff/meta.go:106-118 | a row with no metadata change reported has an empty delta if and only if its predecessor kept its columns |
| `RevisionMeta.ColumnsCanBeOverridden` | internal/pindoc/diff/meta.go:124-146 | a row whose payload clears tags still listed in its column would not keep its columns |
| `MetaBadges.UnbadgedRowsAreQuiet` | internal/pindoc/diff/meta.go:106-118 | on every log the writers produce, a row with no metadata change reported has an empty delta against the row before it |
| `Acceptance.CheckboxMatches` | internal/pindoc/httpapi/task_meta.go:107 | the line scanner accepts exactly the lines the checkbox expression describes, with the same mark |
| `Acceptance.CountTaskAcceptanceResolution` | internal/pindoc/httpapi/task_meta.go:113-126 | resolved is below total exactly when some line is an open checkbox |
| `Acceptance.CountAcceptanceResolution` | internal/pindoc/mcp/tools/checkbox.go:307-317 | the other counter: resolved is total exactly when none of its boxes is open |
| `Acceptance.BoxesPassGate` | internal/pindoc/mcp/tools/checkbox.go:74-109 | without form feeds and carriage returns a body with no open box has no line the gate would stop at |
| `Acceptance.ResolvedUnlessHidden` | internal/pindoc/mcp/tools/checkbox.go:74-109 | a body with no open box passes the gate if and only if no open checkbox of the gate's has a form feed or carriage return before its bracket |
| `AcceptanceTexts.BoxLineIs` | internal/pindoc/httpapi/task_meta.go:107 | a line of bullet, bracketed mark and words is a checkbox for both scanners exactly for the bullets - * + and the marks space x X ~ - |
| `AcceptanceTexts.SpaceBefore` | internal/pindoc/mcp/tools/checkbox.go:74-109 | which white space may stand before it: five characters for the gate, space and tab for the other scanner |
| `AcceptanceTexts.TightBoxes` | internal/pindoc/mcp/tools/checkbox.go:74-109 | without white space behind the bullet or the bracket it is a box for the other scanner and none for the gate |
| `AcceptanceTexts.OpenBoxBlocks` | internal/pindoc/httpapi/task_meta.go:113-126 | one line "- [ ] words" anywhere in a body and it counts as unresolved |
| `AcceptanceTexts.TallyMeans` | internal/pindoc/httpapi/task_meta.go:113-126 | the counts are the number of boxes and the number of those marked x, X, ~ or - |
| `RevisionLog.PatchCells` | internal/pindoc/httpapi/task_meta.go:284-341 | the patch has one cell for each field set: trimmed text, or null to clear |
| `WriterLaws.AcceptedWhen` | internal/pindoc/httpapi/task_meta.go:269-382 | a patch is accepted if and only if the artifact is a Task, message and author are not blank, some field is set, each value is one of those named or blank, the version is current or the head is used, and done is claimed only over a body with no open checkbox |
| `WriterLaws.RefusedFor` | internal/pindoc/httpapi/task_meta.go:269-382 | otherwise the first thing wrong is named, in this order |
| `WriterLaws.ClaimsWhen` | internal/pindoc/mcp/tools/task_reconcile.go:65-112 | when an edit, the sweeper and claim_done claim done, by the kind, the status and the boxes of the body |
| `WriterLaws.MetaPatchWhen` | internal/pindoc/mcp/tools/artifact_propose_meta_patch.go:194-262 | what a meta patch needs, and what it keeps of the columns it does not send |
| `WriterLaws.RowHas` | internal/pindoc/httpapi/task_meta.go:424-435 | the row a writer appends: the next number, which of head or writer gives title, body and columns, and the hash of the body |
| `WriterLaws.HeadMoves` | internal/pindoc/httpapi/task_meta.go:436-447 | a commit changes of the head what its writer is about and nothing else |
| `WriterLaws.TaskMetaMoves` | internal/pindoc/httpapi/task_meta.go:383-447 | what becomes of each key of the head's task_meta, writer by writer |
| `RevisionLog.LoadBodyRebuilds` | internal/pindoc/httpapi/history.go:224-252 | the body query rebuilds the latest stored body at or before the revision |
| `RevisionRuns.RevisionNumbersAreContiguous` | internal/pindoc/httpapi/task_meta.go:345-482 | over every interleaving of the writers revision numbers are exactly 1..n |
| `RevisionRuns.BodiesRebuild` | internal/pindoc/httpapi/history.go:224-252 | at the last revision readers rebuild the head's body, and every stored hash is the hash of the body rebuilt there |
| `RevisionRuns.CommitsReplaceWhatTheyRead` | internal/pindoc/httpapi/task_meta.go:407-447 | a commit that goes through replaces exactly the head its writer read: no lost update, a true audit "from", and the body its writer meant |
| `RevisionRuns.PatchLandsOnItsVersion` | internal/pindoc/httpapi/task_meta.go:375-382 | a patch resolved against a version commits later if and only if the log still ends there |
| `RevisionRuns.ClaimedDoneIsGated` | internal/pindoc/httpapi/task_meta.go:369-435 | when a commit logs claimed_done, although its writer judged the body before the transaction, the head body at that moment has no checkbox that writer reads as open: none at all for the task lane, none but hidden ones for the sweeper |
| `WriterLaws.OnlyTasksArePatched` | internal/pindoc/httpapi/task_meta.go:365-367 | over every run on an artifact that is no Task, no commit is a task patch or claims done, no row logs a status, and task_meta changes only when an edit replaces it |
| `RevisionRuns.EveryLoggedClaimRebuildsResolved` | internal/pindoc/mcp/tools/task_reconcile.go:34-125 | every revision that claims done rebuilds to a body with no open checkbox if and only if that body hides none, and the task lane's always do |
| `RevisionRuns.SweeperPassesHiddenBox` | internal/pindoc/mcp/tools/task_reconcile.go:65-112 | from any reachable open task with all boxes resolved and one hidden, the sweeper logs a claim over an open checkbox |
| `RevisionRuns.SweeperPassesThisBody` | internal/pindoc/mcp/tools/task_reconcile.go:65-112 | such a task, by its body |
| `RevisionRuns.FirstRevisionIsNeeded` | internal/pindoc/httpapi/history.go:230-246 | on an artifact without revisions a metadata patch rebuilds the head's body only if that body is empty |
| `MetaFolds.SilentWrites` | internal/pindoc/mcp/tools/artifact_propose.go:1648-1690 | a write changes the head's value of a key without logging it, or logs what it does not store, exactly when it is an unlogged claim of done, an edit that replaces task_meta, or a meta patch of what is not a Task |
| `MetaFolds.FoldsWhileNothingIsSilent` | internal/pindoc/httpapi/task_meta.go:345-482 | over every run the fold is the head on a key at every moment if and only if the artifact began without the key and no silent write of it is committed |
| `MetaFolds.FoldsUnlessDrifted` | internal/pindoc/httpapi/task_meta.go:383-447 | at the end of every run the fold is the head on a key if and only if the latest commit that logged or changed the key stored what it logged, or changed it unlogged to what some writer had logged last |
| `MetaFolds.TaskLaneFolds` | internal/pindoc/httpapi/task_meta.go:345-482 | if no writer was about to write the key silently when it read, the fold is the head on that key at every moment |
| `MetaFolds.PatchesFold` | internal/pindoc/httpapi/task_meta.go:383-447 | concurrent task patches, visibility changes, rewrites, notes and sweeps of an artifact begun without task_meta keep the fold the head on every key |
| `MetaFolds.TaskMetaFolds` | internal/pindoc/mcp/tools/artifact_propose.go:1545-1690 | when no edit replaces task_meta, the fold is the head on every key but status always, on status if and only if the latest revision to write it was no unlogged claim, and the head holds no nulls |
| `MetaFolds.AutoClaimIsNotFolded` | internal/pindoc/mcp/tools/task_acceptance_transition.go:225-280 | from any reachable state an edit, transition or claim_done that claims done sets the head's status and leaves the folded status where it was |
| `ArtifactTables.FillPatch` | internal/pindoc/httpapi/task_meta.go:269-344 | the field-by-field patch builder returns the first complaint in order, or the patch |
| `ArtifactTables.SortFields` | internal/pindoc/httpapi/task_meta.go:454-459 | the in-place insertion sort orders the changed fields and keeps them all |
| `ArtifactTables.ArtifactRows.ResolveTaskPatch` | internal/pindoc/httpapi/task_meta.go:269-382 | the reads of a patch, with all its refusals in order, of artifacts that are no Tasks among them (with `AcceptedWhen` and `RefusedFor`) |
| `ArtifactTables.ArtifactRows.CommitPending` | internal/pindoc/httpapi/task_meta.go:424-447 | insert and head update happen together, or not at all when the number is taken |
| `ArtifactTables.ArtifactRows.ApplyTaskMetaPatch` | internal/pindoc/httpapi/task_meta.go:257-489 | an uninterrupted patch commits on its first try, or leaves the rows alone and says why |
| `ArtifactTables.ArtifactRows.PatchVisibility` | internal/pindoc/httpapi/artifact_visibility.go:140-218 | a visibility change appends its audit revision exactly when it is allowed and changes something |
| `ArtifactTables.ArtifactRows.ApplyPlanItem` | cmd/pindoc-retro-pass/main.go:221-266 | the plan's body and slug are stored under the revision after the planned one, or nothing is |
| `ArtifactTables.RevisionHistory` | internal/pindoc/httpapi/history.go:75-113 | one carried pass and an in-place reversal judge every row against the row before it |
| `ArtifactTables.HistoryReportsBodyChanges` | internal/pindoc/httpapi/history.go:103-110 | on every reachable log the hash comparison reports a body change exactly when the rebuilt bodies differ |
| `ArtifactTables.NullBodyRowsShowAsMetadata` | internal/pindoc/diff/meta.go:150-170 | a NULL-body metadata row never shows as a text edit |
| `ArtifactTables.SweepShowsAsMetadata` | internal/pindoc/diff/meta.go:150-170 | the sweeper's row, which stores the body it found, shows as a plain metadata change |
| `Migrations.UpTakesEffectAtMostOnce` | internal/pindoc/db/migrate.go:29-114 | however processes interleave and crash, each Up block takes effect at most once and none is undone |
| `Migrations.LockExcludes` | internal/pindoc/db/migrate.go:29-48 | at most one process is past the lock |
| `Migrations.SchemaIsManifestPrefix` | internal/pindoc/db/migrate.go:71-114 | from an empty ledger every reachable schema is the fold of a manifest prefix |
| `Migrations.ReturningNilMeansAllApplied` | internal/pindoc/db/migrate.go:71-114 | a nil return leaves every entry recorded, and from an empty ledger the fold of the whole manifest |
| `Migrations.SchemaStore.Migrate` | internal/pindoc/db/migrate.go:23-114 | the loop, with the lock held and nothing failing, leaves what its specification function says |
| `Migrations.MigrateAddsWhatIsMissing` | internal/pindoc/db/migrate.go:71-114 | it succeeds if and only if no recorded checksum contradicts the manifest, and adds exactly the missing blocks in order |
| `Migrations.LoopIsARun` | internal/pindoc/db/migrate.go:71-114 | the loop is one of the protocol's runs |
| `MigrationHealth.CompareMigrationState` | internal/pindoc/db/migration_health.go:113-195 | the issue list is complete, correct and sorted, names each issue once, and healthy means there is none |
| `MigrationHealth.RowReported` | internal/pindoc/db/migration_health.go:150-180 | what is said of a recorded row: a blank checksum, one that is not the manifest's, with both, or nothing |
| `MigrationHealth.DriftIsReported` | internal/pindoc/db/migration_health.go:150-180 | a recorded checksum that differs from the manifest's is reported |
| `MigrationHealth.StrangerReported` | internal/pindoc/db/migration_health.go:150-180 | so is an applied id the manifest does not know |
| `MigrationHealth.IssueCodes` | internal/pindoc/db/migration_health.go:48-60 | the distinct codes of the issues, sorted |
| `MigrationHealth.CountsBalance` | internal/pindoc/db/migration_health.go:113-195 | in every state known + unknown applied = applied + pending |
| `MigrationHealth.HealthAfterNil` | internal/pindoc/db/migration_health.go:135-195 | after a nil return only unknown applied migrations, and blanks the backfill missed, can be reported |
| `MigrationHealth.HealthyAfterNil` | internal/pindoc/db/migration_health.go:135-195 | after a nil return the report is healthy if and only if every ledger id is in the manifest and no entry began with such a blank |
| `MigrationHealth.TabStaysUnhealthy` | internal/pindoc/db/migrate.go:71-114 | a run that returns nil over a lone-tab checksum leaves it in place and reported |
| `BodyChunks.HeadingMatches` | internal/pindoc/embed/chunk.go:20 | a heading is found at a position, with its end, exactly when the expression reads there, taking as much white space as leaves something to read |
| `BodyChunks.FindAllMeans` | internal/pindoc/embed/chunk.go:50 | the headings found are matches, and every position the expression matches at lies in one of them |
| `BodyChunks.ChunkBody` | internal/pindoc/embed/chunk.go:31-98 | the chunks are the whole body, or one per heading and a preamble |
| `BodyChunks.SplitSections` | internal/pindoc/embed/chunk.go:54-98 | the heading loop with its running index |
| `BodyChunks.ChunksTileBody` | internal/pindoc/embed/chunk.go:31-98 | chunks are numbered from zero, in bounds, contiguous, end the trimmed body and leave out at most a white prefix |
| `BodyChunks.EveryCharacterInOneChunk` | internal/pindoc/embed/chunk.go:31-98 | every character that is not white space lies in exactly one chunk |
| `ChunkTexts.ChunkTextIs` | internal/pindoc/embed/chunk.go:31-106 | a chunk's text is the trimmed title, a blank line, and the body's own text between the chunk's ends, trimmed when the body is split |
| `ChunkTexts.SplitWhen` | internal/pindoc/embed/chunk.go:31-63 | a body is one chunk if and only if its UTF-8 is shorter than the threshold, 600 bytes by default, or no heading matches in it |
| `ChunkTexts.FirstHeading` | internal/pindoc/embed/chunk.go:50-96 | the first line "## words" of a long body starts a chunk headed by those words, and what is before it is a chunk unless blank |
| `ChunkTexts.ByteLenJoined` | internal/pindoc/embed/chunk.go:40 | the length compared with the threshold is that of the UTF-8 text, character by character |
| `SearchIndex.Prepare` | internal/pindoc/indexstate/refresh.go:99-176 | batching by 32 yields what embedding each text alone would, and any bad answer fails the whole |
| `SearchIndex.DifferentVectorsDiffer` | internal/pindoc/embed/vector.go:34-46 | up to 768 dimensions, vectors that differ are stored differently |
| `SearchIndex.RowsAre` | internal/pindoc/indexstate/refresh.go:185-234 | the stored rows: the title's, then one for each chunk with its own text, heading and span, under the model's name and dimension |
| `SearchIndex.BatchesAre` | internal/pindoc/indexstate/refresh.go:127-140 | a batch is the next 32 chunk texts, or what is left |
| `SearchIndex.AcceptedWhen` | internal/pindoc/indexstate/refresh.go:140-183 | an answer is taken if and only if it has one vector for each text, each of the provider's dimension |
| `SearchIndex.PrepareBody` | internal/pindoc/indexstate/refresh.go:127-175 | the batch loop covers every chunk once, in order |
| `SearchIndex.IndexTables.Refresh` | internal/pindoc/indexstate/refresh.go:53-71 | chunks are replaced only when everything was prepared, each then holding the number the provider returned for its text at every place below its dimension and 768, and zero beyond; otherwise they stay and the failure is recorded |
| `SearchIndex.IndexTables.MarkUnknown` | internal/pindoc/indexstate/refresh.go:73-97 | the state becomes unknown, chunks and attempts stay |
| `SearchIndex.StateAfter` | internal/pindoc/indexstate/refresh.go:185-276 | the state recorded after success, failure and mark: revision, hashes, model, status, error and attempts |
| `SearchIndex.ClassifiedAs` | internal/pindoc/indexstate/state.go:47-64 | when an artifact reads as unknown, failed, stale and indexed, by its state, texts and provider |
| `IndexRuns.IndexedMeansCurrent` | internal/pindoc/indexstate/state.go:47-64 | over every run of edits, stale or failed refreshes and provider switches from tables in order, an indexed answer means the stored chunks are those of the current title, body and model |
| `IndexRuns.FailuresKeepChunks` | internal/pindoc/indexstate/refresh.go:236-268 | over every run in which an artifact's refreshes all fail its chunks stay, its attempts grow by one each, and after a failure it reads as failed for every content |
| `IndexRuns.CollectPlans` | cmd/pindoc-reembed/main.go:138-226 | the plan is the rows that match the slugs and the state, in order |
| `IndexRuns.AfterOneIs` | cmd/pindoc-reembed/main.go:228-248 | an artifact's tables after its repair: as before, failed with its chunks kept, or indexed with the provider's numbers |
| `IndexRuns.ReembedOne` | cmd/pindoc-reembed/main.go:228-248 | a provider failure commits, a storage failure rolls back |
| `IndexRuns.RepairLoop` | cmd/pindoc-reembed/main.go:110-130 | the loop's tables and counters over all plans |
| `IndexRuns.PlansComeFromRows` | cmd/pindoc-reembed/main.go:207-226 | a row is planned exactly when it is selected, and once |
| `IndexRuns.NextPlanIsTheFailures` | cmd/pindoc-reembed/main.go:110-130 | with no edits between, the next needs-refresh plan is exactly the artifacts whose re-embed failed |
| `IndexRuns.NoErrorsNoFailures` | cmd/pindoc-reembed/main.go:110-130 | failures and successes add up, and a run without errors leaves nothing to refresh |
| `ArtifactLinks.ConsumeRef` | internal/pindoc/artifactlinks/links.go:131-150 | a slash before any end empties the reference; otherwise it is the raw text less trailing punctuation |
| `ArtifactLinks.RewriteLine` | internal/pindoc/artifactlinks/links.go:81-121 | the scanning loop writes the line's pieces, or stops at the first reference that fails |
| `ArtifactLinks.FinishMeans` | internal/pindoc/artifactlinks/links.go:81-121 | accumulating pieces gives all links replaced in order, or the first failure |
| `ArtifactLinks.RewritePindocLinks` | internal/pindoc/artifactlinks/links.go:48-79 | line loop, fences, early exits and the error return together give what rewriting means |
| `LinkTexts.LinkInLine` | internal/pindoc/artifactlinks/links.go:81-162 | by text: a reference outside code, closed by white space, a bracket, quote, #, ? or the end, is replaced with its prefix and nothing else; the closer and the punctuation before it stay, and an unknown one is reported |
| `LinkTexts.MarkdownLink` | internal/pindoc/artifactlinks/links.go:81-162 | [text](pindoc://ref) becomes [text](url) |
| `LinkTexts.NoRefInText` | internal/pindoc/artifactlinks/links.go:131-150 | nothing is captured where a slash comes first or only punctuation does |
| `LinkTexts.LinkInCode` | internal/pindoc/artifactlinks/links.go:81-121 | behind an odd number of backtick runs the link stays |
| `LinkTexts.FencedIsKept` | internal/pindoc/artifactlinks/links.go:52-79 | between fence lines of backticks or tildes text stays, and behind them links count again |
| `LinkTexts.ErrorKeepsSettled` | internal/pindoc/artifactlinks/links.go:58-67 | on an unknown reference the body stays, and the references returned are those of the lines before it |
| `ArtifactLinks.PiecesSpellBody` | internal/pindoc/artifactlinks/links.go:48-121 | the scanner loses nothing: its pieces spell the body |
| `ArtifactLinks.EarlyExits` | internal/pindoc/artifactlinks/links.go:49-51 | a body without the prefix has no links, and without links the body is returned as it was |
| `LinkPositions.ScanIsSplice` | internal/pindoc/artifactlinks/links.go:81-121 | the scanner captures exactly the prefixes with a reference that an even number of backtick runs precede |
| `LinkPositions.RewritingSplices` | internal/pindoc/artifactlinks/links.go:48-121 | the output is the input with exactly the captured references replaced, in order, outside fences and spans; an error keeps the body and names the first failing reference |
| `LinkPositions.SameLinkIsIdentity` | internal/pindoc/artifactlinks/links.go:48-79 | a resolver that returns the same link changes nothing |
| `LinkSecondPass.OutIsQuiet` | internal/pindoc/artifactlinks/links.go:81-121 | what rewriting a line gives has no link left |
| `LinkSecondPass.SplitAgain` | internal/pindoc/artifactlinks/links.go:52 | joining lines and splitting again gives the lines |
| `LinkSecondPass.SecondPassFindsNothing` | internal/pindoc/artifactlinks/links.go:48-121 | after replacing by URLs of the resolver's shape, a second pass with any resolver finds nothing |
| `LinkSecondPass.RetroUrlIsShaped` | cmd/pindoc-retro-pass/main.go:132-142 | the resolver's URLs have that shape, for http(s) or empty bases and slugs without colon, backtick or newline |
| `LinkTexts.RetroUrlText` | cmd/pindoc-retro-pass/main.go:132-142 | the URL is the base without trailing slashes, /p/, the project, /wiki/ and the target |
| `ChangeGroups.SpansFitFromASecond` | internal/pindoc/changegroup/changegroup.go:400-408 | windowed groups span less than a window if and only if the window is at least a second |
| `ChangeGroupLaws.SharesGroup` | internal/pindoc/changegroup/changegroup.go:514-546 | two rows share a group if and only if they are of one project and filed together: by bulk operation, session and turn, task or run, session, or author, the last three also by window |
| `ChangeGroupLaws.TurnsApart` | internal/pindoc/changegroup/changegroup.go:520-523 | sessions whose names hold no colon are told apart by session and turn |
| `ChangeGroupLaws.ColonsMeet` | internal/pindoc/changegroup/changegroup.go:520-523 | a session named with a colon can meet another in one group |
| `ChangeGroupLaws.QuarterHours` | internal/pindoc/changegroup/changegroup.go:215-219 | by default an author's rows without a session share a group exactly within one quarter of an hour |
| `ChangeGroupLaws.CountsArtifacts` | internal/pindoc/changegroup/changegroup.go:451-472 | the artifact count is the number of different ids, or slugs where there is no id |
| `ChangeGroupLaws.ShownAs` | internal/pindoc/changegroup/changegroup.go:451-472 | an artifact is shown with its row's id, slug, title, area and type, "Artifact" for a blank one |
| `ChangeGroupLaws.FirstOfItsKey` | internal/pindoc/changegroup/changegroup.go:451-472 | the row shown is the first with that artifact |
| `ChangeGroupLaws.AreasAndAuthors` | internal/pindoc/changegroup/changegroup.go:473-478 | areas and authors are exactly the nonempty ones of the rows |
| `ChangeGroupLaws.NamesSorted` | internal/pindoc/changegroup/changegroup.go:702-709 | and strictly ascending |
| `ChangeGroupLaws.TypeCountsMean` | internal/pindoc/changegroup/changegroup.go:663-682 | each type once with its number, more frequent first, then by name |
| `ChangeGroupLaws.WorstState` | internal/pindoc/changegroup/changegroup.go:634-648 | unverified if any row is, else partially verified if any is, else verified if any is |
| `ChangeGroupLaws.ImportanceIs` | internal/pindoc/changegroup/changegroup.go:609-632 | of a human's work, two artifacts and something unverified, none makes it low, one medium, more high |
| `ChangeGroupLaws.ResultOrder` | internal/pindoc/changegroup/changegroup.go:245-253 | groups come by score, then end, both descending, then by the text of their id |
| `ChangeGroupLaws.KindAndLimit` | internal/pindoc/changegroup/changegroup.go:236-257 | asked for a kind the result holds exactly the groups of that kind, and asked for so many the first of them |
| `ChangeGroups.DominantIsMost` | internal/pindoc/changegroup/changegroup.go:650-661 | the dominant kind is the most frequent, the earliest of the fixed order among ties |
| `ChangeGroups.TimesAreMembers` | internal/pindoc/changegroup/changegroup.go:443-450 | start and end are the earliest and latest member times |
| `ChangeGroups.TypeCountsForgetOrder` | internal/pindoc/changegroup/changegroup.go:663-682 | type counts do not depend on map order |
| `ChangeGroups.TypeCountsSumToArtifacts` | internal/pindoc/changegroup/changegroup.go:495-511 | type counts sum to the artifact count |
| `ChangeGroupRuns.RevisionsSumToRows` | internal/pindoc/changegroup/changegroup.go:215-257 | unfiltered revision counts sum to the number of rows |
| `ChangeGroupRuns.GroupsAreTheirMembers` | internal/pindoc/changegroup/changegroup.go:215-257 | each group is that of exactly the rows with its id, bounded by its times, within one window |
| `ChangeGroupRuns.AnyOrderRanksAlike` | internal/pindoc/changegroup/changegroup.go:236-253 | the ranking hides the order the accumulators were read in |
| `ChangeGroupRuns.InputOrderIrrelevant` | internal/pindoc/changegroup/changegroup.go:220-222 | with distinct times the order of the rows does not matter |
| `ChangeGroupRuns.KindAndLimitOnlySelect` | internal/pindoc/changegroup/changegroup.go:236-256 | Kind and Limit filter the full ranking, then take a prefix |
| `ChangeGroupTables.TypeCounts` | internal/pindoc/changegroup/changegroup.go:663-682 | tallying a map in any order gives the same sorted counts |
| `ChangeGroupTables.SortedKeys` | internal/pindoc/changegroup/changegroup.go:702-709 | a set read in any order sorts to the same list |
| `ChangeGroupTables.GroupAcc.Add` | internal/pindoc/changegroup/changegroup.go:443-493 | every field of the accumulator stays a fact about the rows added |
| `ChangeGroupTables.GroupAcc.Finish` | internal/pindoc/changegroup/changegroup.go:495-511 | the finished group is the group of those rows |
| `ChangeGroupTables.DominantKind` | internal/pindoc/changegroup/changegroup.go:650-661 | the loop over the fixed order finds the dominant kind |
| `ChangeGroupTables.AggregateVerification` | internal/pindoc/changegroup/changegroup.go:634-648 | the worst state that occurs |
| `ChangeGroupTables.GroupRows` | internal/pindoc/changegroup/changegroup.go:215-257 | sorting in place, accumulating in a map and reading it in any order gives the ranked groups |
| `RateLimiter.Compact` | internal/pindoc/auth/dcr.go:171-188 | the in-place compaction keeps exactly the recent hits, in order |
| `RateLimiter.Limiter.Allow` | internal/pindoc/auth/dcr.go:122-150 | the decision and the whole table after it; no limit or window admits everything |
| `RateLimiter.Limiter.PruneExpired` | internal/pindoc/auth/dcr.go:152-160 | exactly the expired keys go, and their number is returned |
| `RateLimiter.KeysOf` | internal/pindoc/auth/dcr.go:122-128 | two addresses count under one key exactly when they agree up to white space around them, or are both blank or "unknown" |
| `RateLimiter.OtherAddress` | internal/pindoc/auth/dcr.go:122-150 | an attempt from an address with another key changes no decision for this one |
| `RateLimiter.RecentMeans` | internal/pindoc/auth/dcr.go:171-188 | the hits that count are those after the cutoff, each as often as it was recorded |
| `RateLimiter.AdmittedUpTo` | internal/pindoc/auth/dcr.go:134-148 | at one moment an address is admitted limit times and no more, and each admission is recorded |
| `LimiterClocks.SameDecisions` | internal/pindoc/auth/dcr.go:122-188 | with clocks that settle every decision is that of the full history |
| `LimiterBound.WindowBound` | internal/pindoc/auth/dcr.go:122-150 | over clocks that are tight, those that never go back among them, no interval of one window holds more than limit admissions of a key |
| `LimiterBound.TightIsExact` | internal/pindoc/auth/dcr.go:122-188 | the bound holds of all runs over given clocks if and only if the clocks are tight |
| `LimiterClocks.PruningIsInvisible` | internal/pindoc/auth/dcr.go:152-188 | over such clocks interleaved PruneExpired calls change no decision |
| `RateLimiter.NoEmptyEntries` | internal/pindoc/auth/dcr.go:134-148 | no run leaves an empty entry, whatever its clocks |
| `LimiterClocks.ClocksMustNotGoBack` | internal/pindoc/auth/dcr.go:171-188 | over any clocks that do not settle there is a run the full history decides otherwise |
| `LimiterClocks.SettlingIsExact` | internal/pindoc/auth/dcr.go:122-188 | all runs over given clocks are decided like the full history if and only if the clocks settle |
| `ConsentNonces.NormalizeOAuthScopes` | internal/pindoc/auth/storage_pgx.go:932-948 | the loop with its seen-set computes the canonical list |
| `ConsentNonces.CanonicalIsTheSet` | internal/pindoc/auth/storage_pgx.go:932-948 | two lists have the same canonical form if and only if they ask for the same scopes; it is sorted and has no duplicates |
| `ConsentNonces.JoinedFormIsTheSet` | internal/pindoc/auth/consent.go:252-254 | the joined comparison is equality of scope sets when either request is not blurred, and when no scope holds a NUL |
| `ConsentNonces.BlurredIsExact` | internal/pindoc/auth/consent.go:252-254 | some other scope set has a request's joined form if and only if the request has two or more scopes, or one that a NUL cuts into two proper scopes in order |
| `ConsentNonces.OtherScopesAreAccepted` | internal/pindoc/auth/consent.go:230-259 | the table alone, asked with any scopes at all, would take a live nonce for another scope set if and only if the request it was made for is blurred |
| `ConsentNonces.ConsentStore.CreateConsentNonce` | internal/pindoc/auth/consent.go:201-228 | the sweep drops exactly the expired records and the new one is stored |
| `ConsentNonces.ConsentStore.ConsumeConsentNonce` | internal/pindoc/auth/consent.go:230-259 | the verdict, check by check, and the record gone whatever it is |
| `ConsentNonces.RefusedFor` | internal/pindoc/auth/consent.go:230-259 | a nonce is refused for the first of: five minutes passed, another subject, client, scopes or query, these told apart by their texts; and accepted otherwise |
| `ConsentNonces.RefusedWithout` | internal/pindoc/auth/consent.go:232-239 | a blank token is missing, and one not in the table used |
| `ConsentNonces.KeptBySweep` | internal/pindoc/auth/consent.go:213-217 | a nonce survives a sweep exactly while it is less than five minutes old |
| `ConsentNonces.SameQueryHash` | internal/pindoc/auth/consent.go:261-264 | two raw queries have one hash exactly when they agree without the white space around them and one question mark |
| `ConsentNonces.MarkIsNoMatter` | internal/pindoc/auth/consent.go:261-264 | a query with and without its question mark is the same |
| `ConsentNonces.AcceptedAtMostOnce` | internal/pindoc/auth/consent.go:230-259 | each nonce is accepted at most once |
| `ConsentNonces.AttemptBurns` | internal/pindoc/auth/consent.go:240-241 | any attempt on a live nonce burns it |
| `ConsentNonces.GrantRequestedScopes` | internal/pindoc/auth/fosite.go:606-624 | the loop passes on exactly the supported ones of the requested scopes |
| `ConsentNonces.GrantedIsPlain` | internal/pindoc/auth/fosite.go:602-624 | what is granted is the requested supported scopes, and no scope in it holds a NUL |
| `ConsentNonces.AcceptedMatches` | internal/pindoc/auth/consent.go:201-259 | asked with any scopes, acceptance implies an earlier creation for the same subject and client and, up to white space around it and one question mark, the same query text, not yet expired, with the same joined scopes |
| `ConsentNonces.AcceptedWasCreated` | internal/pindoc/auth/consent.go:44-126 | over every run of requests acceptance implies an earlier creation for the same subject, client, query text and supported scopes, not yet expired |
| `ConsentNonces.FirstUseIsAccepted` | internal/pindoc/auth/consent.go:230-259 | the first matching use in time is accepted |
| `ConsentNonces.SweepChangesNoVerdict` | internal/pindoc/auth/consent.go:213-217 | sweeping never changes whether a nonce is accepted |
| `ArtifactPages.ListArtifacts` | internal/pindoc/httpapi/handlers.go:753-901 | asking for one row more and truncating gives the page, whether there is more, and the cursor of its last row |
| `ArtifactPages.ListingOrdered` | internal/pindoc/httpapi/handlers.go:776-830 | a listing shows each row that passes the cursor once, each strictly before the next |
| `ArtifactPages.OrderIs` | internal/pindoc/httpapi/handlers.go:776-818 | Tasks come after everything else; then the later update first; then the greater id |
| `ArtifactPages.BehindARow` | internal/pindoc/httpapi/handlers.go:776-791 | behind the cursor of a row come exactly the rows after it |
| `ArtifactPages.MoreMeans` | internal/pindoc/httpapi/handlers.go:866-890 | there is more exactly when a row that passes is not shown, and then the cursor is that of the last row shown |
| `ArtifactPages.DecodedWhen` | internal/pindoc/httpapi/handlers.go:651-667 | which cursors are taken |
| `PageWalks.NothingTwice` | internal/pindoc/httpapi/handlers.go:764-890 | no artifact is shown twice, whatever is updated between requests |
| `PageWalks.UntouchedShown` | internal/pindoc/httpapi/handlers.go:764-890 | a finished walk shows every untouched artifact |
| `PageWalks.WalkEnds` | internal/pindoc/httpapi/handlers.go:866-890 | a walk over n artifacts has at most n / limit pages with more behind them |
| `PageWalks.PagesConcatenate` | internal/pindoc/httpapi/handlers.go:764-890 | without updates the pages are the whole sorted list, cut |
| `ArtifactPages.ParseLimit` | internal/pindoc/httpapi/handlers.go:625-637 | default, error and cap of the limit parameter |
| `ArtifactPages.LimitIs` | internal/pindoc/httpapi/handlers.go:625-637 | by its digits: none asked is 100, zero an error, more than 200 is 200, and else the number itself |
| `PercentCoding.EncodeRoundTrips` | web/src/readerRoutes.ts:32-42 | decoding undoes encoding for every string |
| `PercentCoding.EncodePlain` | web/src/readerRoutes.ts:32-42 | encoding never emits a separator |
| `PercentCoding.Utf8RoundTrip` | web/src/readerRoutes.ts:103-109 | UTF-8 decodes to the code point it encodes |
| `PercentCoding.StandsForItself` | web/src/readerRoutes.ts:32-42 | letters, digits and - _ . ! ~ * ' ( ) are encoded as themselves, and nothing else is |
| `PercentCoding.PercentForms` | web/src/readerRoutes.ts:32-42 | each byte is a percent sign and two upper-case hexadecimal digits |
| `PercentCoding.WellFormedMeans` | web/src/readerRoutes.ts:103-109 | the byte sequences decoded are the UTF-8 forms of scalar values and no others |
| `PercentCoding.ByteAtMeans` | web/src/readerRoutes.ts:103-109 | a byte is read from a percent sign and two hexadecimal digits of either case, and from nothing else |
| `ReaderRoutes.PartsOfRendered` | web/src/readerRoutes.ts:58-61 | a printed path reads back as its nonempty parts |
| `ReaderRoutes.SurfaceRoundTrips` | web/src/readerRoutes.ts:21-30 | every canonical surface reads back |
| `ReaderRoutes.SurfaceSegments` | web/src/readerRoutes.ts:21-30 | the segments that name a surface: today, wiki, tasks, graph, inbox, and task for the tasks |
| `ReaderRoutes.PlainPath` | web/src/readerRoutes.ts:32-42 | the path printed for plain names |
| `ReaderRoutes.QueryIsIgnored` | web/src/readerRoutes.ts:44-61 | what follows a ? or # does not matter, nor does one more slash before the path |
| `ReaderRoutes.TaskAlias` | web/src/readerRoutes.ts:21-88 | a path under task is read as one under tasks, with and without an org |
| `ReaderRoutes.MatchedWhen` | web/src/readerRoutes.ts:58-88 | which paths are the Reader's, and which of them are of the old form |
| `ReaderRoutes.PathRoundTrips` | web/src/readerRoutes.ts:32-88 | reading undoes printing if and only if the project is not empty and the org is not "p" |

## Left out

- Which bodies and task_meta each tool's own validation lets through: edits carry any. The fields that rows about pins, areas and checkboxes log are any but the four that readers take for metadata.
- Data migrations that rewrite task_meta or a template's body while the schema is upgraded.
- The sweeper's batch: one transaction over several tasks is, for one artifact, a commit or nothing.
- Events rows, telemetry, author columns and updated_at of the artifact writers: nothing here reads them back.
- Row locks: readers inside a transaction may be overtaken in the model, which only adds interleavings.
- Slug allocation and aliases in retro-pass; the final slug is a parameter.
- Request decoding, including the visibility tier's spelling, HTTP statuses and message texts.
- JSON text: payloads are decoded values, numbers keep their literal.
- extractUp: an Up block is known by its migration id, and the schema is the list of blocks that took effect.
- The date parser behind due_at: its verdict is part of the request.
- Float rounding and the text form of vectors; vectors are sequences of reals.
- Chunk positions count code points, not bytes; the length threshold counts bytes. Bodies are valid UTF-8 there.
- NormalizeRef and slug resolution; the link resolver is any function, and the link error's wrapped cause is dropped.
- RetroUrlIsShaped: the trimming of white space around the public base URL happens before the model.
- The substring rules that classify a group's kind, source-session JSON, commit summaries, importance reasons, compaction and briefs.
- sort.SliceStable and sort.Strings are taken as a stable insertion order; the slices sorted in place are arrays.
- Limiter.Allow: a key's hits are a sequence, replaced rather than compacted in place; Compact proves the in-place loop on an array.
- The text form of a page cursor: base64 and JSON are taken to round-trip, which leaves the decoder's field checks.
- Mutexes of the limiter and the nonce table: each call is one step.
- Accepting an authorize request after its nonce: origin checks and the OAuth library, which may keep a granted scope once.
- Artifact type changes and deletions during a walk over the pages.
- Lone surrogates in Reader paths, on which encoding throws.
