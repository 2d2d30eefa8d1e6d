# OpenLocalCRM: verified model of the stateful core

A Dafny 4.11 model of the parts of OpenLocalCRM that carry state or a protocol, with proofs of what
they keep over every input and every run. `dafny verify dfyconfig.toml` checks the whole project.
Paths below are relative to the repository root.

## What is modelled

**Backup** (`Json`, `Decoder`, `Store`, `StoreLaws`, `Validate`, `Restore`, `Meaning`, `Export`,
`BackupInventory`, `Program`). A JSON document is a sequence of lexemes; one position of the file is
one lexeme. `Decoder.Reader` is the streaming decoder (position, mode, stack of modes) the restore
drives; `Json` holds the recursive grammar as an independent reference. `Validate` is the first
pass: it walks the file token by token and records offsets. `Restore` is the second pass and the
transaction around it; `RestoreSpec` says on trees what the call must do. `Store` is the database
side of one upsert: conflict column, columns an update leaves alone, columns it names that the table
does not have, NOT NULL, uniqueness and foreign keys checked per statement; a cell is SQL NULL or a
value, and a JSONB cell may be the JSON null. `Meaning` says what a committed call leaves in the
tables, on the members of the envelope's objects alone. Everything is proved over any well-formed
inventory; `BackupInventory` is the program's: 24 tables, their allow-lists, which columns are
nullable, JSONB or arrays, and the 29 foreign keys among them, read off the migrations.

**Drill** (`Digest`, `ForeignKeyText`, `Drill`). The scratch schema, the retargeting of foreign key
definitions as text, the streamed import under a pinned search path, and the digest comparison. A
table is a value of an arbitrary type with parameters for upsert and selector; every statement may
fail.

**Sessions** (`Sessions`, `Rotation`). The refresh-token statements and transactions on a store
whose `RunTx` takes a snapshot and restores it, and the interleaving of logins, refreshes, replays,
logouts, revocations and cleanups, with reads and writes as separate events on one clock. A raw
token stands for its hash; fresh tokens, families and call ids are drawn by the surroundings.

**Rate limiter** (`Limiter`, `LimiterRuns`, `LimiterCleanup`, `LimiterLogins`). The object with its
map, capacity bound and arbitrary eviction, and whole runs of events on a monotone clock, with
logins of one key one after the other or side by side.

**Audit** (`AuditChain`, `Sanitizer`, `Utf8`). Appending and verifying the hash chain with an arbitrary
hash of 64 characters without the separator, and an arbitrary function for what the store makes of
a JSON text, with the spacing of JSONB as one of them; the recursive masking of JSON trees, on byte strings, for an arbitrary lower-casing, and the JSON
round trip in front of it, which respells what is not UTF-8.

**Deals** (`Deals`, `DealRuns`). The guarded statements, the service calls as methods, and every
interleaving of their read, merge, write and classify steps.

**Workflow runs** (`Workflow`, `Approvals`), **SSE hub** (`Hub`), **calendar text** (`Ics`). The step loops with
an approval gate, a failing step at any point and status writes that are lost; approvals of one run
side by side, with read, steps and write as separate events; channel ownership
and delivery with read-locked sections that run side by side; the six escaping replacements and the RFC 5545 reader.

## Where a stated property is false of the code

* **The export round trip.** A replace-restore of the program's own export commits if and only if
  `ai_audit_logs` and `ai_research_jobs` are both empty and no NOT NULL column of type JSONB holds
  the JSON null (`Program.ExportRestores`, the 13 columns are `BackupInventory.REQUIRED_JSON`).
  `ai_audit_logs` stores `user_id` (migration 00021), `row_to_json` prints it, and the allow-list
  does not admit it: one row makes the document invalid (`Program.OneAuditedCallIsRefused`).
  `UpsertAIResearchJobsRow` (internal/db/backup.sql.go:631-649) assigns `updated_at`, a column the
  table does not have (migration 00009), and `jsonb_to_record` reads the JSON null as SQL NULL: the
  document is valid, and every transaction fails, in replace and in merge
  (`Program.OneResearchJobRollsBack`, `Program.OneEmptyWorkflowRollsBack` for a workflow posted
  without steps, internal/core/automation/service.go:129-160; with an empty list it comes back,
  `Program.OneWorkflowRestores`). A JSON null in a nullable column, `old_values` and `new_values` of
  `audit_logs`, comes back as SQL NULL.
* **The audit chain in the database.** The three JSON columns are JSONB, which does not keep a
  text's bytes. A produced table verifies if and only if the JSON texts of every logged record
  survive storage, or a logged text collides with what the store made of it
  (`AuditChain.ProducedVerifiesIff`); otherwise verification stops at the first record that does not
  survive (`AuditChain.RewritingStoreIsNoticed`). With the spacing of JSONB a record survives if and
  only if none of its texts has a colon or comma outside a string (`AuditChain.JsonbSurvivesIff`):
  one LogDiff call breaks the chain (`AuditChain.OneDiffBreaksTheChain`), a Log call without changes
  does not (`AuditChain.OneLogVerifies`).
* **The sliding bound.** It holds of a configuration with a positive window if and only if
  `maxAttempts >= 1` and `lockoutDur >= windowDur` (`LimiterRuns.BoundIff`).
* **Unobservable limiter cleanup.** It holds for all configurations when no lock falls on a key
  between an IsLocked that answers no and the RecordFailure it leads to, and so for logins of one key
  that do not overlap (`LimiterCleanup.CleanupUnobservable`). For the login handler's calls with
  logins of one key that do overlap, and for arbitrary calls, it holds if and only if
  `lockoutDur >= windowDur` or the window is negative (`LimiterLogins.OverlapIff`,
  `LimiterLogins.CleanupIff`); three logins show it (`LimiterLogins.ThreeLogins`). In one given run
  below the capacity bound it holds if and only if no RecordFailure meets a lock that has run out
  inside its window (`LimiterCleanup.RunIff`).
* **Exactly-once steps.** A run plans each of its steps once if and only if the workflow has at most
  one draft (`Workflow.ExactlyOnceIff`, multiplicities in `Workflow.PlanCounts`). With succeeding
  steps and approvals one after the other it executes each once if and only if there is no draft, or
  one and the status write of its first approval is not lost (`Workflow.ExecutedOnceIff`): every lost
  write has the steps of its approval executed once more (`Workflow.LostWriteCounts`). Nothing keeps
  two approvals of one run apart: side by side, every approval that read the run executes its segment
  (`Approvals.EachApprovalOnce`), and each step is executed once if and only if the segments of the
  approvals hold it once (`Approvals.OnceIff`), so two that read the same gate execute it twice with
  every write kept (`Approvals.SameGateTwice`).
* **The end of a run.** With approvals one after the other an ended run stays as it is
  (`Workflow.TerminalAfterDrafts`). Side by side it can be opened again if and only if an approval is
  under way whose segment ends at a further draft (`Approvals.ReopensIff`), because the status write
  has no guard; a completed run goes back to waiting in `Approvals.EndedRunReopens`.
* **Sanitizing a value twice.** On normalised trees and on scalars the second time changes nothing
  (`Sanitizer.Idempotent`). A second call of `SanitizeDiffValue` on a composite value normalises it
  again, and a mask can have cut a character: it changes nothing if and only if no mask in the tree
  does, but for cuts that leave what the replacement character would (`Sanitizer.DiffTwiceIff`);
  `{"email":"ö@x"}` is an input where it does (`Sanitizer.HalfALetter`).

## Model

| member | source | states |
|---|---|---|
| Json.ParsePrintedValue | internal/core/backup/service.go:224-277 | The reference grammar reads every printed JSON value back, wherever it stands in a file, and stops right behind it. |
| Json.AcceptsIff | internal/core/backup/service.go:224-277 | The grammar accepts at a position, with a value and an end, exactly when the printed text of that value stands there and ends there. |
| Decoder.SkipIsDecode | internal/core/backup/restore.go:387-415 | The depth-counting loop succeeds exactly when the grammar accepts a value there, and stops at the same place in the same mode as a decode, without building the value. |
| Decoder.DrainValue | internal/core/backup/restore.go:397-413 | At any depth, discarding tokens consumes exactly one value of the grammar and goes on at the same depth. |
| Decoder.Reader.Token | internal/core/backup/restore.go:331-341 | One token with its separators checked against the mode, or an error; the new cursor is the specified one. |
| Decoder.Reader.Decode | internal/core/backup/restore.go:189-194 | One call decodes exactly the value the grammar finds behind the separator, or fails when there is none. |
| Decoder.Reader.SkipValue | internal/core/backup/restore.go:387-415 | The method with its depth variable: accepts and stops as specified, for every nesting. |
| Validate.ReadColumn | internal/core/backup/restore.go:361-377 | One column is refused exactly when it is not allowed, repeated or malformed; otherwise the decoder is behind its value. |
| Validate.ValidateRow | internal/core/backup/restore.go:357-383 | A row is accepted exactly when it is an object whose columns are all allowed, distinct and include the primary key. |
| Validate.ValidateTableRows | internal/core/backup/restore.go:328-355 | A table is accepted exactly when it is an array of acceptable rows; the recorded offset is where the grammar reads that array. |
| Validate.ReadTablesObject | internal/core/backup/restore.go:290-323 | Accepts exactly the objects whose members are known tables with acceptable rows; the ranges describe the last occurrence of each name. |
| Validate.ReadHeaderField | internal/core/backup/restore.go:252-279 | A top-level member is decoded, walked or skipped by its key; unknown keys with any value are accepted. |
| Validate.ReadEnvelopeHeader | internal/core/backup/restore.go:240-284 | Accepts exactly the objects all of whose top-level members are acceptable, and reports format, version and ranges of the last occurrences. |
| Validate.ValidateBackupFile | internal/core/backup/restore.go:215-235 | Pass one accepts a file exactly when its first value is a valid envelope of this format and version, and its ranges match that tree. |
| Restore.Service.UpsertElements | internal/core/backup/restore.go:186-205 | The row loop applies exactly the elements of the array, in order, and counts them; it fails exactly when the array is malformed or a row is refused. What the rows leave is `Meaning.RowsMean`. |
| Restore.Service.ApplyTableRows | internal/core/backup/restore.go:168-210 | Seeking back to a recorded offset applies exactly the rows the grammar reads there. |
| Restore.Service.ApplyBackupTables | internal/core/backup/restore.go:139-166 | Truncation for replace, then all present tables in registry order, with one count per table; equal to the import on the tree. |
| Restore.Service.RunTransaction | internal/core/backup/restore.go:95-107 | Commit makes the import visible as a whole; every failure before it leaves the committed database as it was. |
| Restore.Service.Restore | internal/core/backup/restore.go:35-130 | The whole call gives the database, report and audit events that the tree-level specification gives, for every file, mode and fault of the surroundings; each outcome has its own audit events. What a committed one leaves is `Meaning.CommitMeans`. |
| Restore.MissingTableNames | internal/core/backup/service.go:125-133 | The registry tables an envelope lacks, in registry order. |
| Restore.MissingMeans | internal/core/backup/service.go:125-133 | The names a refused replace reports are exactly those of the registry tables the envelope lacks, at rising positions of the registry. |
| Meaning.EnvelopeMeans | internal/core/backup/restore.go:215-235 | A tree passes the first pass exactly when it is an object each of whose format, version and tables members has its own shape, whose last textual format and last integer version are the program's, and which has a tables member of known tables with rows of allowed, different columns and the primary key. |
| Meaning.UpsertMeans | internal/db/backup.sql.go:737-765 | An accepted upsert writes one row of one table, under the key its object names: on a conflict each assigned column holds the object's last member of that name, null and absent alike being NULL or an empty list, and every other column what it held; a new row holds every allow-listed column so, and NULL elsewhere. |
| Meaning.UpsertIff | internal/db/backup.sql.go:737-765 | An upsert is accepted exactly when its statement names only columns that exist, the row is an object that leaves no NOT NULL column NULL, and the row it would write takes no unique value of another row and has no reference without its parent. |
| Meaning.RowsMean | internal/core/backup/restore.go:186-205 | After a list of rows the table holds its old keys and those of the rows; a row without an envelope row for its key is as it was; any other holds the assigned columns of the last envelope row for its key, and the rest from the stored row or else the first. |
| Meaning.CommitMeans | internal/core/backup/restore.go:35-130 | After a committed restore every table the file lists rows for is its old content, or for a replace nothing, merged with them in that sense, and the report counts them; every other table is as it was. |
| Meaning.CommitsIff | internal/core/backup/restore.go:35-130 | A restore commits exactly for a known mode, an acceptable envelope, complete for a replace, surroundings that work, and rows that are all accepted; otherwise the database is as it was, and only the completion audit can fail a committed one. |
| Restore.TwoPassAgreement | internal/core/backup/restore.go:168-210 | The rows the seeking pass decodes for a table are exactly the rows the validating pass accepted for its last occurrence. |
| Restore.MergeIsIdempotent | internal/core/backup/restore.go:139-166 | After a committed merge, merging the same file again never changes the database. |
| StoreLaws.MergeAgain | internal/core/backup/restore.go:139-166 | From a sound database, and without repeated keys in the envelope, the second merge is accepted and yields the same state. |
| Restore.ReplaceIsMergeIntoEmpty | internal/core/backup/restore.go:61-81 | Replace commits exactly the complete envelopes that a merge into the empty database commits, with the same outcome; in every other case the database is left as it was. |
| Restore.ReplaceIsComplete | internal/core/backup/restore.go:69-73 | Replace commits only envelopes that carry every registry table and no other. |
| Restore.TableOrderIrrelevant | internal/core/backup/restore.go:139-166 | Two files that differ in nothing but the order of their tables members are accepted or refused alike and restored to the same database, report and audit events, in every mode and under every fault. |
| Restore.OrderIsSafe | internal/core/backup/tables.go:49-314 | In both modes an envelope closed under the foreign keys is never refused by one, and every state between two upserts satisfies every constraint. |
| Store.EveryStateSound | internal/core/backup/restore.go:139-166 | Whatever the envelope holds, every state between two upserts satisfies keys, uniqueness and foreign keys. |
| Store.StatesAll | internal/core/backup/restore.go:139-166 | None is left out of these states: after any number of whole tables and of rows of the next one the database is among them. |
| Store.ClosedNeverViolates | internal/core/backup/tables.go:49-314 | Registry order lets every reference of a closed envelope find its parent. |
| StoreLaws.RebuildsItself | internal/core/backup/restore.go:139-166 | Importing the rows of a restorable database, in any order, into emptied tables rebuilds it, a JSON null in a nullable column having become NULL; it is rebuilt exactly if and only if there is none. |
| Export.Exporter.WriteTables | internal/core/backup/service.go:238-262 | The streamed separators, names and arrays are the printed tables object. |
| Export.Exporter.Export | internal/core/backup/service.go:224-277 | The bytes sent are exactly the printed envelope, and nothing is sent unless the completion audit was written. |
| Export.ExportReadsBack | internal/core/backup/service.go:224-277 | A reader of the sent text finds format, version, time stamp and tables, in this order, and in the tables one array per registry table, in registry order, holding the streamed rows. |
| Export.ExportAccepted | internal/core/backup/restore.go:357-383 | Pass one accepts the exported envelope exactly when no table with a stored column outside its allow-list holds a row. |
| Export.RoundTrip | internal/core/backup/service.go:224-277 | Replace-restoring the export commits if and only if no row stands in a table that stores a column outside its allow-list or whose upsert names a column the table lacks, and no row holds the JSON null in a NOT NULL column; then the database is the exported one, row for row, with one count per row, a JSON null elsewhere as NULL; in the first case the document is invalid, in the others alone the transaction is rolled back. |
| Export.RestoreOfExport | internal/core/backup/restore.go:35-130 | In either mode an exported document is refused in pass one exactly when a row carries an extra column, and is otherwise imported as the rows that were streamed. |
| Export.DeadRowsNeverMerge | internal/db/queries/backup.sql:14-16 | An exported row whose upsert cannot succeed, for an unknown column or a JSON null where NULL is not allowed, makes every merge of a valid document roll back. |
| StoreLaws.DeadRowsRefused | internal/core/backup/restore.go:139-166 | An import that brings a row for a table whose upsert cannot run, or without a value for a NOT NULL column, fails, whatever else it brings and whatever the database holds. |
| BackupInventory.ProgramWellFormed | internal/core/backup/tables.go:49-455 | The program's registry has distinct tables, distinct columns, keys inside the allow-lists, and every foreign key points to an earlier table. |
| Program.ExportRestores | internal/core/backup/tables.go:451-454 | The program's own export restores if and only if ai_audit_logs and ai_research_jobs are both empty and none of the 13 NOT NULL columns of type JSONB holds the JSON null; a row of the first makes it invalid, otherwise the transaction is rolled back, and nothing changes. |
| Program.OneAuditedCallIsRefused | internal/core/backup/restore.go:357-383 | A sound database with a single ai_audit_logs row and nothing else exports a document that is refused as invalid, in replace and in merge. |
| Program.OneResearchJobRollsBack | internal/db/backup.sql.go:631-649 | A sound database with a single ai_research_jobs row and nothing else exports a document that passes validation and never commits, in replace or in merge. |
| Program.OneEmptyWorkflowRollsBack | internal/core/automation/service.go:129-160 | So does one with a single workflow that was posted without steps, its steps_json being the JSON null. |
| Program.OneWorkflowRestores | internal/core/automation/service.go:129-160 | With an empty list of steps the same workflow comes back as it was. |
| Program.ProgramOrderIsSafe | internal/core/backup/tables.go:49-314 | Order safety for the program's own 24 tables and 29 foreign keys. |
| Digest.RowDigest.Add | internal/db/backup_digest.go:64-69 | The accumulator has been fed exactly the rows added, in order, each followed by one newline, and counts them. |
| Digest.DigestRows | internal/db/backup_digest.go:79-85 | Digesting rows in memory gives the count and digest of streaming them. |
| Digest.FedInjective | internal/db/backup_digest.go:64-69 | Newline-free rows can be told apart by what the hash was fed. |
| Digest.DigestDecides | internal/db/backup_digest.go:64-75 | Digests of newline-free rows agree if and only if the rows are equal or the two fed texts collide. |
| ForeignKeyText.RewriteRetargets | internal/core/backup/scratch.go:436-447 | Rewriting a clear definition, qualified or not, succeeds exactly when the parent is in public; the server then reads the same key with only the parent's schema exchanged. |
| Drill.Server.CreateSchema | internal/core/backup/scratch.go:274-280 | Succeeds if and only if the name has the checked pattern, is not taken and no statement fails; then, and only then, it becomes a schema. |
| Drill.Server.CloneTables | internal/core/backup/scratch.go:285-297 | Succeeds if and only if the tables are different, each is in public and none in the schema, and no statement fails; then every table has an empty clone and the catalog what the server copies with it. Nothing outside the scratch schema changes on any path. |
| Drill.Server.DropCopied | internal/core/backup/scratch.go:404-414 | Unless a statement fails the catalog loses exactly the scratch keys that point at public, and the loop counts them. |
| Drill.Server.RewriteForeignKeys | internal/core/backup/scratch.go:386-430 | Succeeds if and only if every public key has its parent in public, both tables in the schema and a name not taken there, and no statement fails; then the catalog is the old one without the copied keys into public plus one retargeted twin per public key, with the exact counts. |
| Drill.Server.VerifyTables | internal/core/backup/scratch.go:499-535 | Passes exactly when every registry table exists in the scratch schema and the query does not fail. |
| Drill.Server.VerifyForeignKeys | internal/core/backup/scratch.go:556-600 | Passes exactly when no scratch key points at public, the schema carries at least as many keys as were added, and the query does not fail. |
| Drill.Server.Import | internal/core/backup/scratch.go:546-551 | Changes the one table its search path finds, by exactly one upsert, and succeeds if and only if there is such a table, the upsert accepts the row and the statement does not fail. |
| Drill.Server.ImportTable | internal/core/backup/scratch.go:157-171 | Succeeds if and only if the table is in public, the upserts accept every row listed there and no statement fails; then the scratch table is what they make of those rows, in order, the digest is that of the rows, and every other table is untouched. |
| Drill.ImportedIff | internal/core/backup/scratch.go:157-171 | What an import makes of a table is the end of a chain of states, one upsert for each row in their order, each on what the one before it left. |
| Drill.Server.DropSchema | internal/core/backup/scratch.go:299-305 | A dropped schema leaves no table and no key behind; nothing else changes, and only names of the checked pattern are dropped. |
| Drill.Runner.ImportAll | internal/core/backup/scratch.go:157-176 | From empty clones every scratch table is loaded from its public original and digested, if and only if the upserts accept every row and no statement fails. |
| Drill.Runner.Compare | internal/core/backup/scratch.go:194-218 | The comparison finishes if and only if every table has equal counts and digests on both sides and no statement fails; the total is the sum of the rows. |
| Drill.Runner.Transact | internal/core/backup/scratch.go:138-236 | The transaction passes if and only if no statement fails, every public row is accepted and each table read back has the count and digest of its public rows, some table has a row, no scratch key points at public and there are as many keys as were added; it touches only the scratch schema and is undone on every failure. |
| Drill.Runner.Drill | internal/core/backup/scratch.go:92-236 | A drill passes if and only if no statement before the verdict fails and the database is healthy: a valid, new schema name, tables that can be cloned, public keys that can be retargeted, and rows that survive the round trip, one at least. On every path nothing outside the scratch schema changes; a passed drill was sound just before the schema was dropped, and its statistics count every public key. |
| Drill.HealthyIff | internal/core/backup/scratch.go:92-236 | On a server that knows nothing of the schema, healthy means: the tables are different and exist, every public key lies between two of them, points into public and finds its name free of what a clone keeps, and every table survives the round trip, one of them with a row. |
| Drill.DrillSoundness | internal/core/backup/scratch.go:92-236 | After a passed drill every scratch table is what the upserts make of the public rows, and newline-free rows read back are the sequence streamed from public, or the hash collides on what it was fed; some row was compared, no scratch key points at public and every public key has its twin. |
| Sessions.Store.ConsumeRefreshToken | internal/db/sessions.sql.go:14-21 | Only an unspent, unexpired token is spent, at this time, and nothing else changes. |
| Sessions.Store.RotateTx | internal/auth/service.go:364-402 | Whatever fails inside the transaction, both tables are as before: the old token unspent, no successor. |
| Sessions.Store.KillTx | internal/auth/service.go:411-419 | Family deletion and version bump happen together or not at all. |
| Sessions.Store.RevokeAllTx | internal/auth/service.go:157-168 | Deletion of all of a user's tokens and version bump happen together or not at all; which rows go is `Sessions.RevokeAllMeans`. |
| Sessions.Store.RefreshToken | internal/auth/service.go:340-403 | Without interleaving: refused, detected as a replay, or rotated, with the resulting tables in each case; it succeeds if and only if the token is stored, unspent and unexpired, its user active, the successor new, and signature and commit work. |
| Sessions.RotateMeans | internal/auth/service.go:364-402 | A rotation spends the token, adds one unspent row of the same user and family that lives thirty days, touches no other row, and mints an access token that is accepted. |
| Sessions.RevokeAllMeans | internal/db/sessions.sql.go:124-127 | Revoking all sessions succeeds if and only if the user exists and the commit works; then exactly the rows of that user are gone, every other row is unchanged, and that user's version alone is one higher. |
| Sessions.KillMeans | internal/auth/service.go:411-419 | A committed replay deletes exactly the rows of the family and bumps its user alone. |
| Sessions.SweepMeans | internal/db/sessions.sql.go:94-97 | The cleanup deletes exactly the expired rows and those spent more than thirty days ago. |
| Sessions.SweepSparesIff | internal/db/sessions.sql.go:94-97 | The cleanup spares every unexpired row exactly when it keeps spent rows at least for a token's lifetime. |
| Rotation.RotationSafety | internal/auth/service.go:340-403 | In every interleaving each family has at most one unspent token and no token is exchanged twice. |
| Rotation.ReplayKillsForGood | internal/auth/service.go:405-438 | After a committed replay transaction, in every continuation, no token of the family is exchanged, presenting one is refused, and every access token of the user handed out or in flight at the commit is rejected. |
| Rotation.RevokeAllEndsForGood | internal/auth/service.go:157-168 | After a committed revocation of all sessions, in every continuation, no token of the user issued before is exchanged, presenting one is refused, a refresh that had read one is denied, and every access token of the user handed out or in flight is rejected. |
| Rotation.LoginMeans | internal/auth/service.go:292-325 | However long other calls run between the read and the write of a login, it grants an access token of that user, accepted if and only if nothing has bumped the user in between, and one new unspent row of a new family that lives thirty days. |
| Rotation.AcceptedUntilBumped | internal/auth/middleware.go:92-103 | In every run an accepted access token stays accepted exactly until an event bumps its user. |
| Rotation.CleanupUnobservable | internal/db/sessions.sql.go:94-97 | The cleanup statement inserted anywhere in a run changes no outcome of any other event. |
| Rotation.ReplayStaysDetectable | internal/auth/service.go:346-361 | Until it expires, presenting a spent token is detected as a replay exactly unless a logout or revocation deleted its row. |
| Limiter.RateLimiter.constructor | internal/auth/limiter.go:36-53 | An empty limiter with the given bounds, the capacity defaulting to 10000. |
| Limiter.RateLimiter.CleanupExpired | internal/auth/limiter.go:78-92 | A record goes if and only if its lock, or without one its last update, is longer ago than the lockout, or the window. |
| Limiter.RateLimiter.EnsureCapacity | internal/auth/limiter.go:94-124 | Nothing goes below the bound; at it expired records go first, then a tenth of the bound, one at least, of arbitrary ones, and only if the map is still full; afterwards there is room. |
| Limiter.RateLimiter.Allow | internal/auth/limiter.go:182-217 | Answer and new map of one call, the capacity bound kept. |
| Limiter.RateLimiter.RecordFailure | internal/auth/limiter.go:155-180 | Answer and new map of one call, the capacity bound kept. |
| Limiter.RateLimiter.IsLocked | internal/auth/limiter.go:126-153 | Answer and new map of one call, an expired record being dropped. |
| LimiterRuns.RequestsUntilLocked | internal/auth/limiter.go:182-217 | In a burst of requests on a key without a live record the first maxAttempts are let through and the next one locks the key for the whole lockout. |
| LimiterRuns.FailuresUntilLocked | internal/auth/limiter.go:155-180 | In a burst of failures on such a key the failure that makes them maxAttempts, the second at the earliest, locks the key for the whole lockout, and none before it does. |
| LimiterRuns.LockHolds | internal/auth/limiter.go:126-217 | While a key is locked, whatever else happens, each request and each query of it is answered with what remains of the lockout at that moment, and none prolongs or shortens it. |
| LimiterRuns.LockEnds | internal/auth/limiter.go:126-217 | When the lockout is over the next query finds the key free and the next request starts afresh. |
| LimiterRuns.SlidingBound | internal/auth/limiter.go:182-217 | With maxAttempts >= 1 and lockoutDur >= windowDur, at most maxAttempts admissions per key in every half-open window, whatever is interleaved. |
| LimiterRuns.BoundIff | internal/auth/limiter.go:182-217 | For a positive window those two conditions are also necessary. |
| LimiterCleanup.CleanupUnobservable | internal/auth/limiter.go:78-92 | In runs without eviction where no lock falls between the clearing IsLocked and its failure, logins of one key that do not overlap among them, a cleanup inserted anywhere changes no answer. |
| LimiterCleanup.RunIff | internal/auth/limiter.go:155-180 | In a run below the capacity bound that holds if and only if no RecordFailure meets a record whose lock has run out while its window is open. |
| LimiterLogins.CleanupIff | internal/auth/limiter.go:155-180 | For arbitrary runs without eviction cleanup is unobservable exactly when the lockout is at least the window or the window is negative. |
| LimiterLogins.OverlapIff | internal/auth/service.go:211-275 | The same condition is exact for the login handler's calls when logins of one key overlap: each failure has a clearing IsLocked of its own. |
| LimiterLogins.SlowLogin | internal/auth/service.go:211-275 | With any shorter lockout: one login is cleared, others lock the key, its failure comes after the lock, and a cleanup shows. |
| LimiterLogins.ThreeLogins | internal/auth/limiter.go:155-180 | Three logins with a lockout of 1 in a window of 10: the last failure is answered with a lock, or not at all if a cleanup ran before it. |
| LimiterCleanup.FitsAfter | internal/auth/limiter.go:94-124 | Every legal event keeps the capacity bound. |
| AuditChain.Service.LatestHash | internal/core/audit/service.go:179-188 | The latest non-empty hash, or the genesis value. |
| AuditChain.Service.Log | internal/core/audit/service.go:227-258 | The appended row names the latest hash, carries the hash of the text written and holds what the store keeps of the record. |
| AuditChain.JoinedIs | internal/core/audit/service.go:162-175 | The hashed text, written out: previous hash, user, entity type, entity, action, changes, old and new values, address and agent, in this order, an absent one as no text, with a bar between each two. |
| AuditChain.AppendedIs | internal/core/audit/service.go:227-258 | The stored row, field by field: an empty address or agent becomes NULL, the JSON texts are as the store keeps them, the rest is as given. |
| AuditChain.Service.VerifyAuditChain | internal/core/audit/service.go:262-316 | The loop returns the specified verdict and index. |
| AuditChain.VerdictMeans | internal/core/audit/service.go:262-316 | The verdict is valid exactly when every linked row names the latest hash before it and carries its own; otherwise the index is that of the first bad row. |
| AuditChain.ProducedVerifiesIff | internal/core/audit/service.go:190-258 | A table written by any sequence of Log, LogDiff and unlinked writes verifies exactly when each logged record's three JSON texts survive storage or its text collides with the stored form. |
| AuditChain.TextSurvivesIff | internal/core/audit/service.go:153-177 | Whatever the predecessor, the hashed text of a record comes back unchanged exactly when its three joined JSON texts do. |
| AuditChain.ProducedVerifies | internal/core/audit/service.go:190-258 | If every logged record survives storage, the produced table verifies to its end. |
| AuditChain.RewritingStoreIsNoticed | internal/core/audit/service.go:262-316 | Verification stops with the index of the first logged record that does not survive storage, unless the hash collides on its two texts. |
| AuditChain.JsonbSurvivesIff | internal/db/migrations/00017_audit_logs_diff.sql:4-5 | With the spacing of JSONB a record survives storage exactly when none of its three texts has a colon or comma outside a string. |
| AuditChain.OneDiffBreaksTheChain | internal/core/audit/service.go:190-225 | One LogDiff call on a JSONB column: the next verification reports row 0, unless the hash collides. |
| AuditChain.OneLogVerifies | internal/core/audit/service.go:227-258 | One Log call without changes on the same column verifies. |
| AuditChain.ChainIntegrity | internal/core/audit/service.go:262-316 | Two verified, fully linked logs with the same last hash have the same joined text in every row, or the hash is broken on texts in them. |
| AuditChain.TextsGiveFields | internal/core/audit/service.go:162-175 | Equal texts under previous hashes of equal length are equal records, each of the nine fields on its own, when only the user agent may hold the separator. |
| AuditChain.SameHeadSameRecords | internal/core/audit/service.go:262-316 | Two verified, fully linked logs with the same last hash hold the same records, row by row and field by field, or the hash is broken on texts in them. |
| AuditChain.RewrittenRecordIsNoticed | internal/core/audit/service.go:262-316 | Rewriting the record of one linked row of a verified log is reported at that row, unless no field differs or the two texts collide. |
| AuditChain.SeparatorAmbiguity | internal/core/audit/service.go:162-175 | Without that restriction two different records share one text. |
| Sanitizer.SanitizeValue | internal/core/audit/service.go:52-76 | The recursion with loops computes the specified tree. |
| Sanitizer.KindMeans | internal/core/audit/service.go:78-105 | What a key says, by the words standing in it: evidence, else a phone word, else mail, else a credential word, else nothing. |
| Sanitizer.MaskedUnder | internal/core/audit/service.go:78-105 | Under a key with such a word a scalar becomes the phone mask, the address mask or [REDACTED]; under any other key it stays. |
| Sanitizer.MaskFixed | internal/core/audit/service.go:78-105 | A scalar is left alone exactly when it already has a masked form, and every mask has one. |
| Sanitizer.MaskReveals | internal/core/audit/service.go:84-99 | Two numbers are masked alike exactly when they share their two bytes at either end, two addresses exactly when they share first byte and domain. |
| Sanitizer.FixedIff | internal/core/audit/service.go:52-76 | A tree is left alone exactly when every scalar under a telling key is masked. |
| Sanitizer.Idempotent | internal/core/audit/service.go:52-76 | Sanitizing a normalised tree twice is sanitizing it once, and SanitizeDiffValue twice on a scalar is once. |
| Sanitizer.DiffTwiceIff | internal/core/audit/service.go:30-50 | For every value, a second SanitizeDiffValue changes nothing if and only if the value is null, evidence or a scalar, or every mask in its normalised tree cuts well. |
| Sanitizer.SecondMask | internal/core/audit/service.go:78-117 | A mask that is normalised is masked to itself exactly when its cuts fall between characters or leave the bytes of the replacement character. |
| Sanitizer.HalfALetter | internal/core/audit/service.go:78-117 | For one address starting with a two-byte letter the two calls give different bytes. |
| Utf8.RespellFixed | internal/core/audit/service.go:107-117 | Encoding a text as JSON and decoding it again leaves exactly the valid UTF-8 texts alone. |
| Sanitizer.ShapeKept | internal/core/audit/service.go:52-76 | Keys, lengths, nulls and scalars stay in place, and every subtree under a consent_ key is untouched. |
| Deals.Service.Execute | internal/db/deals.sql.go:223-391 | One guarded statement: whether it found a row, and the new table; what the rows hold then is said by the calls and by `Deals.TagMeans`. |
| Deals.Service.Update | internal/core/deal/service.go:261-328 | Checks in order, links kept when absent, fields merged, and the guarded write with its answer, in the sense of `Deals.UpdateMeans`. |
| Deals.UpdateMeans | internal/core/deal/service.go:261-328 | When an update succeeds, with which error it fails, and every field of the row it leaves: links kept where none is given, EUR where no currency is, merged custom fields, a closing time exactly for WON and LOST, the rest as given or as it was. |
| Deals.Service.UpdateStage | internal/core/deal/service.go:160-194 | Ok if and only if the deal is there and open, the stage is none of the revoked ones and the probability between 0 and 100; then the row has that stage and probability, a closing time exactly for WON and LOST, and every other field as it was. Each refusal has its own error and changes nothing. |
| Deals.Service.RevokeDeal | internal/core/deal/service.go:385-413 | A revoked deal is returned as it is; an open one gets the revoked stage, probability 0, the given or the current time and the reason, and keeps every other field. |
| Deals.Service.Create | internal/core/deal/service.go:99-146 | Ok if and only if there is a title, no revoked stage and a probability between 0 and 100; the new row holds the input, with LEAD, EUR and {} for what was left empty. |
| Deals.Service.Delete | internal/core/deal/service.go:370-383 | An open deal goes, and nothing else; a missing or revoked one is refused with its own error. |
| Deals.TagMeans | internal/db/deals.sql.go:379-386 | Tagging appends a new tag to an unrevoked row and touches nothing else. |
| DealRuns.StageCallLands | internal/core/deal/service.go:160-194 | Whatever runs between its read and its statement, a change of stage sets stage, probability and closing time of the row as the others left it and keeps all else, or changes nothing if the row is gone or revoked by then. |
| DealRuns.UpdateCallLands | internal/core/deal/service.go:261-328 | Whatever runs between its read, its merge and its statement, an update keeps the links of the row it read first, merges with the custom fields of the row it read second, and leaves what it does not write as it stands at the statement. |
| DealRuns.RevokedSpelling | internal/core/deal/service.go:40-43 | In every interleaving from an empty table a stage normalises to revoked exactly when it is WIDERRUFEN; exactly then there is a revocation time, and the probability is 0. |
| DealRuns.RevocationIsAbsorbing | internal/db/deals.sql.go:223-232 | A revoked row never changes and never disappears, whatever follows. |
| DealRuns.FirstRevokeWins | internal/core/deal/service.go:385-413 | Every later Revoke of the deal, under way or still to come, is answered with the first one's time and reason. |
| DealRuns.ClassifierIsExhaustive | internal/core/deal/service.go:73-85 | The final branch of the classifier is never taken, and its answer says exactly whether the deal is revoked or gone. |
| Workflow.Engine.TriggerEvent | internal/core/automation/service.go:198-220 | The trigger loop leaves the specified status, current step and trace. |
| Workflow.Engine.ApproveStep | internal/core/automation/service.go:251-352 | Only a waiting run accepts an approval; the loop leaves the specified trace, and the run it found if the status write is lost. |
| Workflow.TriggerRunsPrefix | internal/core/automation/service.go:669-691 | A trigger or test run executes exactly the draft-free prefix in order, cut short only by a failing step; the current step is the draft it waits for, or the last one executed. |
| Workflow.ApproveRunsSegment | internal/core/automation/service.go:292-312 | One approval executes from its draft through the next one, inclusive, or to the end. |
| Workflow.ApproveStopsAtLast | internal/core/automation/service.go:290-319 | An approval that is kept leaves the run at the last step it executed, whatever the step numbers. |
| Workflow.WholeRun | internal/core/automation/service.go:251-319 | Trigger and as many approvals as drafts, every status write persisted, leave the run terminal, having executed its plan up to and including the first failure. |
| Workflow.AttemptsAreRounds | internal/core/automation/service.go:290-347 | Whichever steps fail and whichever status writes are lost, each approval executes its gate's segment up to the first failure, and the gate moves on only if the write is kept. |
| Workflow.LostWrites | internal/core/automation/service.go:333-347 | With steps that succeed, a run is complete exactly when as many approvals as drafts were persisted; it has executed the draft-free prefix and one segment per approval, the same again after each lost write. |
| Workflow.LostWriteCounts | internal/core/automation/service.go:333-347 | The exact multiplicities then: every lost write adds one execution of each step of its segment. |
| Workflow.PlanCounts | internal/core/automation/service.go:299-312 | Over a whole run every draft but the first is executed twice and every other step once; the length is exact. |
| Workflow.ExactlyOnceIff | internal/core/automation/service.go:299-312 | The plan of a run is its steps once each, in order, exactly when there is at most one draft. |
| Workflow.ExecutedOnceIff | internal/core/automation/service.go:290-347 | With approvals one after the other, whatever status writes are lost, a completed run of succeeding steps has executed them once each exactly when there is no draft, or one whose first approval was persisted. |
| Workflow.ApproveAdvances | internal/core/automation/service.go:290-312 | The current step never decreases and a run that still waits has fewer drafts ahead, whatever the step numbers. |
| Workflow.TerminalAfterDrafts | internal/core/automation/service.go:251-347 | With n drafts any approvals, one after the other, of which n were persisted leave the run terminal, and further ones change nothing, whatever the step numbers, failures and lost writes. |
| Approvals.SoloIsAttempt | internal/core/automation/service.go:251-347 | An approval that no other interleaves with has the outcome of one sequential attempt. |
| Approvals.EachApprovalOnce | internal/core/automation/service.go:257-347 | In every run of approvals side by side a step has been executed once by the trigger, if it came to it, and once by each approval that came to it, whatever fails and is lost. |
| Approvals.OnceIff | internal/core/automation/service.go:257-347 | When all approvals are through and none failed, every step was executed once if and only if each from the first draft on is in the segment of exactly one approval. |
| Approvals.SameGateTwice | internal/core/automation/service.go:257-263 | Two approvals that read the same gate execute it twice. |
| Approvals.ReopensIff | internal/db/queries/workflows.sql:48-55 | An ended run can be opened again, its steps succeeding, if and only if an approval is under way whose segment ends at a further draft. |
| Approvals.EndedRunReopens | internal/db/queries/workflows.sql:48-55 | With two drafts and three approvals, one of them slow, a completed run waits again although no write is lost. |
| Hub.Registry.Send | internal/sse/hub.go:59-86 | Every channel of the addressees is offered the message once, every other is untouched. |
| Hub.Registry.Revoke | internal/sse/hub.go:107-116 | Exactly the user's channels are closed, once, and leave the map. |
| Hub.RevokedForGood | internal/sse/hub.go:107-116 | Revoking a user shuts each of its channels once and leaves every other channel and registration alone; nothing is offered to a shut channel ever after, and its client receives what was buffered and no more. |
| Hub.ServeMeans | internal/sse/hub.go:134-143 | A stream is registered with an open, empty channel unless the bound is reached, and then nothing changes. |
| Hub.Registry.Register | internal/sse/hub.go:134-143 | Registration within the bound, refusal at it. |
| Hub.Registry.Unregister | internal/sse/hub.go:145-152 | The deferred cleanup closes a channel only if it still owns it. |
| Hub.ChannelOwnership | internal/sse/hub.go:128-152 | In every run no channel is sent to after its close or closed twice, the map holds exactly the open ones and stays within its bound, and when all handlers are gone each channel was closed exactly once. |
| Hub.EachCallOnce | internal/sse/hub.go:59-86 | In every run with calls side by side a channel has been offered the message of each call that addressed it, once, but for the calls that have not come to it yet, and nothing else; a call that has ended has offered to each of its addressees. |
| Hub.ReachesExactly | internal/sse/hub.go:59-86 | However long a call runs, it offers its message, once, to no channel but those that were registered when it began, for that user if it names one; once it has ended it has done so to each of them. |
| Hub.CallOrder | internal/sse/hub.go:59-86 | A call that began after another had ended comes after it in the offers of every channel. |
| Hub.DeliveryInOrder | internal/sse/hub.go:59-86 | Each client has received in order the messages of a prefix of the accepted calls, all different and each addressed to its channel; a message is dropped exactly when 16 are buffered. |
| Hub.SendAlone | internal/sse/hub.go:59-86 | In whatever order the map is walked, a send left alone offers its message to each addressee exactly once, as the loop does. |
| Ics.EscapeIsOnePass | internal/core/appointment/service.go:384-392 | The six successive replacements are one left-to-right pass. |
| Ics.EscapeInvertible | internal/core/appointment/service.go:384-392 | The result holds no CR or LF, and a reader of the escapes of section 3.3.11 of RFC 5545 turns it into the input with every line break as one newline. |
| Ics.StrictIff | internal/core/appointment/service.go:384-392 | A reader that refuses the control characters that section excludes does so if and only if the input holds none but tabs and line breaks. |
| Ics.EscapeSeparates | internal/core/appointment/service.go:384-392 | Two texts are escaped alike exactly when they differ in the spelling of line breaks only. |

## Assumptions

* Each SQL statement outside a transaction and each transaction is one atomic step. At READ
  COMMITTED a family deletion can miss a row that a concurrent transaction is inserting.
* One clock, in seconds for sessions; the thirty days of the cleanup interval are 720 hours, as in a
  session time zone without clock changes.
* A value printed by `row_to_json` is read back by the casts of its upsert as the same value.
* Ids, tokens and families drawn at random are fresh.
* The stage normalisation maps WIDERRUFEN and LEAD to themselves.
* A workflow's steps do not change between trigger and approval, and the row of a new run is stored.
  In `Workflow` approvals of one run come one after the other; `Approvals` drops that. `Workflow.WholeRun`, the segments and the counts
  assume strictly increasing step numbers, which workflow creation does not check;
  `Workflow.TerminalAfterDrafts` does not.
* Each call of Broadcast or SendToUser has an id of its own, and each login records at most one
  failure.
* Public foreign key definitions name their parent once, with identifiers that need no quotes.

## Left out

- SQL casts and column types: a row that the allow-list admits is refused for a missing value, but not for one of the wrong type.
- The upload limit of 512 MiB that the restore handler puts on a document.
- White space, byte offsets and number formatting of JSON: one lexeme is one position.
- Spooling, I/O errors and context cancellation: the file is given, and faults of the database are parameters.
- Restore.TwoPassAgreement: does not model the nesting limit of 10000 that Go's Decode has and Token has not, because nesting is unbounded in the model; a deeper column passes pass one and fails the transaction.
- Decoder.SkipIsDecode, Export.RoundTrip: leave out the same limit; up to that depth they hold of the code.
- AuditChain.JsonbSurvivesIff: of JSONB only the spacing is modelled, not the order of keys or the spelling of numbers and escapes.
- LimiterCleanup.RunIff: runs that reach the capacity bound, where an insertion cleans the map by itself; the other results on cleanup cover them.
- Workflow.LostWrites: a step that fails in an approval whose write is lost; `Workflow.AttemptsAreRounds` covers it segment by segment.
- Store.Upsert: a conflict on a second UNIQUE column is an error, as in PostgreSQL; its message text and the order of errors within one statement are not modelled.
- Drill.Runner.Drill: a scratch row that violates a scratch foreign key is a statement that fails, because a table is an opaque value to its upsert; so is a failing connection.
- Concurrent writers to public while a drill runs: the drill is the only writer.
- Log rows of a logout after a cleanup: the audit row names the family only if the token row still exists.
- Login up to the user read (rate limit, password, TOTP): only the outcome, an active user's row, enters the model.
- TOTP, password and role changes: they are version bumps or status changes of a user.
- Saturation of time.Duration and of int32 counters: times and counters are unbounded.
- The choice of evicted limiter entries: any set of the prescribed size.
- SHA-256, Ed25519, JWT parsing and cookies: parameters or outside; of the middleware only the comparison of token versions is modelled.
- changedKeys and the encoding of LogDiff's maps: the three JSON texts are given.
- SanitizeDiffValue for Go structs, and what JSON makes of their numbers: values are trees whose numbers stay as they are, and a failing encoding is not modelled.
- An insert of an audit row that the database refuses: only rows that were written are modelled.
- Foreign key actions on deals when a company, contact or user is deleted, and restoring deals from a backup: other writers of the deals table.
- The length limit of a deal's stage column.
- Workflow notifications, webhooks and drafts inside a step: an abstract action that succeeds or fails.
- Hub frames, heartbeats, write deadlines and the registration helper that only tests call, which does not observe the bound.
- GenerateICS and its unescaped UID line: only the text escaping is modelled.
- HTTP handlers, RBAC, the AI gateway, mail, search and the launcher.
