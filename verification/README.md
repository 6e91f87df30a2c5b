# Audit service: a Dafny model

A model of the parts of the audit service whose correctness spans several calls, processes or databases, and proofs
about them:

- **The ledger** (`Ledger`, `RecordService`, `EventConsumer`, `ConcurrentConsumer`, `AuditTrigger`). `Record` writes a key row and a record
  row in one transaction. `Ledger` runs any number of calls one statement at a time, with crashes and rollbacks; a
  call waits while another open transaction has inserted its key. `RecordService` is the call as the service makes it,
  shown to be a run of the protocol; `EventConsumer` feeds it from at-least-once deliveries, and `ConcurrentConsumer`
  interleaves those with any other calls.
- **Reading** (`QueryFilter`, `QueryMeaning`, `Paging`, `AuditQuery`, `ExportLoop`, `ExportRepeats`, `AuditExport`,
  `Text`). A filter becomes a clause
  list with positional arguments; pages are cut from a total order; the export loop asks for pages until its limit.
- **Route policies** (`PolicyStore`, `PolicyAccepts`, `PolicyRepository`, `PolicyLocking`, `PolicySerial`, `PolicyRefusals`, `PolicyLoad`,
  `PolicyService`, `RouteSync`, `RowTrigger`, `RowStamps`, `PolicyActors`, `PolicyDialects`). `PolicyStore` is the transaction of `Set` on the three tables as a function,
  `PolicyRepository` the statements and loops that carry it out, `PolicyLocking` any number of them at once under row
  locks, `PolicySerial` the proof that these are serializable and `PolicyRefusals` what their refusals tell, `PolicyLoad` what
  a node reads back, `RouteSync` the route table, and `PolicyDialects` the comparison of Postgres with MySQL, whose
  triggers are in `RowTrigger`.
- **Caches and retries** (`SnapshotCoherence`, `RouteIdCache`, `Idempotency`, `Outbound`).

Tables are maps by primary key, kept as fields where the code updates them; the SQL statements are functions from
table to table with the trigger, the unique indexes and the CHECKs inside them. Clocks, the UUID generator, hashing,
JSON redaction, the grant verifier, the CEL compiler, the network and the scheduler are parameters. Timestamps are
integers.

What the proofs found, beside what was expected:

- An export whose limit is above 100 and no multiple of 100 reads its last page at the wrong offset as soon as there
  are more matches than whole pages: it repeats earlier rows and omits the ones it owes
  (`AuditExport.ExportIsExactIff`).
- An append between the count and the select of the last page an export reads can end it early. With events recorded as
  they occur, an export of whole pages below its limit misses a record only so, exactly if that select found more than
  the pages hold (`AuditExport.ExportSkipsNothingIff`, `AuditExport.SkipsHappen`).
- Events recorded between its pages can make an export write a record twice. Exactly when is told by how many were
  added between any two pages: one is enough between two neighbouring full pages, 200 between them repeat nothing
  (`AuditExport.ExportRepeatsNothingIff`, `AuditExport.RepeatsHappen`).
- `Service.Set` trims the permissions only in its validation copy. On MySQL, which has no CHECK on scopes, a scope sent
  with a blank is committed, and from then on no node can load any policy
  (`PolicyService.MySqlPaddedScopeStopsLoad`). On Postgres the CHECK on scopes refuses it
  (`PolicyService.PostgresAlwaysLoads`), but not blanks around a key, resource or action: there too a policy can be
  loaded that is not the one that was compiled, exactly if a field has such blanks
  (`PolicyService.LoadsCompiledIff`, `PolicyService.PaddedKeyLoadsAnother`).
- Sets with such scopes, and calls of actors with outer spaces, are exactly what takes the two databases out of step
  (`PolicyDialects.InStepIff`).
- "Internal" as the answer to a `Set` does not say whether it was written (`PolicyService.InternalTellsNothing`), and
  the loser of a racing creation gets it instead of a conflict (`PolicyRefusals.RaceLoserIsNotTold`). That is the one
  refusal that is not what the transaction, run alone, would have answered (`PolicyRefusals.RefusalsAreSerialIff`).
- A commit between the two SELECTs of `Load` yields the old expression and version with the new permissions, or with
  none if it disables the policy (`PolicyLoad.TornLoadIff`), and a write between the reload and the reading of the
  revision stays invisible to polling (`SnapshotCoherence.WriteBetweenReloadAndRevision`).
- README.md:222-224 of the service promises that a replay returns the original result. It does so for the service's own
  handlers, which answer through OK and Fail (`Idempotency.OwnAnswersReplay`); of other unified responses, of which it has
  none, for exactly those with status 200 and the errors without a body (`Idempotency.ReplayIsFirstAnswer`,
  `Idempotency.OtherAnswersDiffer`).
- A keyword is searched for literally only if it holds no `%`, `_` or `\` (`Text.LikeIsSubstringIff`).

## Model

| member | source | states |
|---|---|---|
| `Ledger.StepEffect` | internal/audit/repository.go:29-39 | a statement, rollback or crash leaves both tables as they are, unless it is a commit; a commit adds the call's own key and record, under an id that was not there |
| `Ledger.StepKeepsInv` | internal/database/transaction.go:22-44 | every statement of every call keeps the tables paired, the open keys distinct and each call's progress consistent with what is committed |
| `Ledger.OneRecordPerId` | migrations/postgres/000002_audit_records.up.sql:20 | in every reachable state of N concurrent calls the two tables hold the same ids and one record per id, although the primary key of the records is (id, occurred_at) |
| `Ledger.CommittedRowsStay` | migrations/postgres/000005_database_audit.up.sql:8-9 | committed rows of both tables are never changed or removed, also when UPDATE and DELETE are attempted |
| `Ledger.AnswersAreDurable` | internal/audit/service.go:92-102 | a successful answer names a record that is in the ledger from then on, for the caller's tenant |
| `Ledger.ReplaysAgree` | internal/audit/service.go:78-98 | all successful calls for one id, at any two moments, answer with the same record up to created and updated times, and named one tenant |
| `Ledger.RefetchFindsIffTenantMatches` | internal/audit/service.go:93-98 | the Get after a duplicate key finds the record if and only if the stored record is of the call's tenant |
| `Ledger.ForeignIdFails` | internal/audit/service.go:93-101 | once an id belongs to another tenant, a call for it never succeeds and none of its statements changes the tables |
| `Ledger.NoDeadlock` | internal/audit/repository.go:29-35 | while a call is unfinished some statement can run without a fault |
| `RecordService.PrepareIs` | internal/audit/service.go:44-91 | the checks accept exactly the calls that are complete, of the own tenant, of an application that may be used and with readable summaries and id; refuse the others with the error of their reason; and the record made of an accepted call holds every field as it was sent, trimmed or redacted, the summaries in their places, with the caller as actor if none is named |
| `RecordService.AuditService.Create` | internal/audit/repository.go:29-39 | inserts key and record, all or nothing, and reports a duplicate key |
| `RecordService.AuditService.Record` | internal/audit/service.go:44-103 | told from the call, the ledger and the faults alone: which record is written, with which contents and stamps, or none; when the call succeeds and with which record; and which error stands for which reason |
| `RecordService.LandEffect` | internal/audit/service.go:78-102 | a call adds at most the one record it names; a failed one adds nothing unless only the reply was lost; a successful one is stored with the answered content |
| `RecordService.UserRecordsOwnRows` | internal/audit/service.go:207-232 | whatever a user's call, a record it adds is of the user's own tenant and of no application or one that the verifier grants that tenant, and a record it is answered with is of that tenant |
| `RecordService.ReplayIsReadOnly` | internal/audit/service.go:78-82 | recording a stored id again, with any content, writes nothing and answers the stored record unless the Get fails |
| `RecordService.RefinesProtocol` | internal/audit/service.go:78-102 | the call run alone is a run of the concurrent protocol with the same tables and the same answer |
| `EventConsumer.SplitDots` | internal/app/audit_eventbus.go:102-103 | the parts hold no dot and joined with dots are the text |
| `EventConsumer.SourceServiceIs` | internal/app/audit_eventbus.go:93-107 | the service is the source the payload names, else for a type "platform.x" or "platform.x. ..." it is "x-service", else "unknown" |
| `EventConsumer.AcceptableIff` | internal/app/audit_eventbus.go:58-76 | which envelopes are recorded, in terms of their fields |
| `EventConsumer.ImageIs` | internal/app/audit_eventbus.go:67-74 | every field of the record an envelope becomes: type as action, aggregate as resource, summary as what was afterwards, the actor of its request or the consumer |
| `EventConsumer.Consume` | internal/app/audit_eventbus.go:58-76 | one delivery leaves the ledger that recording the envelope's image leaves |
| `EventConsumer.ImageIsTimeless` | internal/app/audit_eventbus.go:67-74 | what an acceptable envelope contributes does not depend on when it is processed |
| `EventConsumer.OneDelivery` | internal/app/audit_eventbus.go:58-76 | a delivery adds at most the image of its envelope, and has it in the ledger unless it failed before the commit |
| `EventConsumer.ExactlyOnce` | internal/app/audit_eventbus.go:58-76 | two sequences of deliveries that run one at a time and have the same effective envelopes, in any order and with any repetitions and failures, leave the same whole ledger up to database times |
| `EventConsumer.NothingLostNothingExtra` | internal/app/audit_eventbus.go:58-76 | after deliveries that run one at a time the ids in the ledger are the earlier ones and those of the effective envelopes, and earlier rows stay |
| `ConcurrentConsumer.EventIsImage` | internal/app/audit_eventbus.go:58-76 | beside any other calls, interleaved statement by statement: once a delivery of an envelope has succeeded its event is in the ledger, and whenever it is there it is the image of the envelope |
| `ConcurrentConsumer.ExactlyOnceConcurrently` | internal/app/audit_eventbus.go:58-76 | two such runs that have each delivered all of some envelopes agree on all their events up to database times |
| `ConcurrentConsumer.NothingExtra` | internal/audit/repository.go:29-39 | in every reachable state each stored record is what some call asked to record |
| `QueryFilter.NormalizeFilter` | internal/audit/service.go:178-205 | the loop computes the normal form: fields trimmed, ids trimmed, blanks and later duplicates dropped |
| `QueryFilter.CleanIdsMembers` | internal/audit/service.go:190-203 | the ids kept are exactly the non-blank ones, trimmed |
| `QueryFilter.NormalizeIdempotent` | internal/audit/service.go:178-205 | normalising twice is normalising once, so all pages of an export select alike |
| `QueryFilter.WhereScalars` | internal/audit/repository.go:75-87 | the equality clauses bind exactly their arguments and hold of exactly the undeleted rows of the tenant that have each of the nine values the filter gives, column by column |
| `QueryFilter.WhereList` | internal/audit/repository.go:88-95 | the IN clause has one mark per id and adds exactly the id condition |
| `QueryFilter.WhereKeyword` | internal/audit/repository.go:96-102 | the keyword clause has seven marks and adds exactly the keyword condition |
| `QueryFilter.WhereRange` | internal/audit/repository.go:103-110 | the bounds that are set are added, inclusive |
| `QueryFilter.QueryWhere` | internal/audit/repository.go:74-111 | for every filter the marks equal the arguments in number and, bound by position, the clauses select exactly the rows that meet the filter, whose condition is spelled out field by field |
| `QueryMeaning.NormalMeets` | internal/audit/service.go:178-205 | the rows that meet the normalised filter are those asked for by the filter as it was sent: each value without the blanks around it compared with the column of its name, the ids that are not blank, the keyword, the two bounds |
| `QueryFilter.KeywordIsSubstring` | internal/audit/repository.go:96-102 | without LIKE metacharacters the keyword condition is a substring search in actor id, action, resource type and id, request id, trace id and source service, ignoring case |
| `Text.LowerIs` | internal/audit/repository.go:96-97 | ignoring case: each capital becomes the small letter at its place of the alphabet |
| `Text.LikeWildcards` | internal/audit/repository.go:96-97 | `_` is any one character, `%` any text, and an escaped character itself |
| `Text.ByteLengthIs` | internal/audit/service.go:148 | a text is as long as its bytes in UTF-8 |
| `Text.WhiteSpaceIs` | internal/audit/service.go:178-190 | what counts as a blank |
| `Text.LikeIsSubstringIff` | internal/audit/repository.go:96-97 | `%k%` means substring search if and only if k holds no metacharacter |
| `Text.TrimIsMiddle` | internal/audit/service.go:179-189 | trimming removes a blank prefix and a blank suffix and nothing else |
| `Text.TrimsToNothing` | internal/audit/service.go:132-134 | exactly blank text trims to nothing |
| `Paging.BeforeIsTotalOrder` | internal/audit/repository.go:70 | (occurred_at, id) descending is a strict total order on records with distinct ids |
| `Paging.SortedMeans` | internal/audit/repository.go:70 | in a sorted listing a row stands before another if it happened later, or at the same time and its id is the greater text |
| `Paging.OrderBySorts` | internal/audit/repository.go:70 | ordering keeps the rows and sorts them |
| `Paging.SortedIsUnique` | internal/audit/repository.go:70 | the ordered result of a query is determined by its rows |
| `Paging.PagesArePrefix` | internal/audit/repository.go:68-70 | the first k pages of a size put together are the first k times size results |
| `Paging.PagesPartition` | internal/audit/repository.go:64-71 | pages of one size on a fixed table: together they are all matches in order, as many as the total, and each match is on exactly one page |
| `Paging.RankGrows` | internal/audit/repository.go:70 | when rows are added no earlier result moves up |
| `AuditQuery.SelectPage` | internal/audit/repository.go:59-72 | answers the page of the ordered matches and the number of matches, with LIMIT and OFFSET bound as the last two arguments, or the error of a statement |
| `AuditQuery.Admit` | internal/audit/service.go:128-170 | an admitted filter has a page from 1 and a size from 1 to 100, and for a user the own tenant and a granted application |
| `AuditQuery.AdmitIs` | internal/audit/service.go:128-170 | a query is admitted exactly if a tenant is named, is the own one of a user, ids, keyword and bounds are within their limits, a user's application is granted and the page size is at most 100; page 1 and 20 records are the defaults; each error stands for its reasons |
| `AuditQuery.Query` | internal/audit/service.go:128-176 | told from the filter as it was sent: answered exactly if allowed and no statement fails, with the page asked for of the rows asked for in their order, and their number; otherwise the error of the reason |
| `AuditQuery.AdmitEveryPage` | internal/audit/service.go:247-252 | with the verifier answering alike another page is admitted or refused alike; and any admitted page selects by the same normalised filter |
| `AuditQuery.OnlyOwnRowsShown` | internal/audit/service.go:128-176 | a user is shown rows of the own tenant and of an application the user was verified for, only |
| `AuditQuery.QueryIsolation` | internal/audit/service.go:128-176 | two ledgers that agree on those rows give a user the same answer |
| `ExportLoop.FixedExport` | internal/audit/service.go:247-266 | on a table that does not change the loop writes whole pages of 100 and then, for a remainder r, r rows read at offset (limit div 100) times r |
| `ExportLoop.ExportIsPrefixIff` | internal/audit/service.go:247-266 | that is the first min(limit, N) matches, without repeats, if and only if limit <= 100, or limit mod 100 = 0, or N <= 100 * (limit div 100) |
| `ExportLoop.CutShortRepeats` | internal/audit/service.go:248 | otherwise the first row of the last page was written before |
| `ExportLoop.NothingSkipped` | internal/audit/service.go:247-266 | with appends at any time, every page read a whole one and the last query atomic, no record that matched at the start is skipped: it is written or ranks behind all rows read, the latter only at the limit |
| `ExportLoop.NothingSkippedIff` | internal/audit/service.go:247-266 | with newest-first appends an export of whole pages writes everything that matched at the start if and only if its last select found no more than its pages hold; below the limit the reason for a miss is an append between count and select of the last page |
| `ExportLoop.WholeLimit` | internal/audit/service.go:247-248 | under a limit that is a multiple of 100 every page is a whole one |
| `ExportLoop.ExportRunIs` | internal/audit/service.go:249-252 | the loop fails with the first refusal of the pages it would read without any, and otherwise writes what it would |
| `AuditExport.CsvSafe` | internal/audit/service.go:274-279 | no cell starts with a formula sign, and exactly the values that do get a quote before them |
| `AuditExport.ColumnsMatchHeadings` | internal/audit/service.go:242-257 | under each of the 17 headings stands the field of that name |
| `AuditExport.CellIs` | internal/audit/service.go:256-259 | row i of the file is record i, cell by cell, made safe |
| `AuditExport.Limit` | internal/audit/service.go:235-240 | a maximum is refused exactly above 10000; one that is not positive means 10000, any other itself, so a limit is between 1 and 10000 |
| `AuditExport.WriteRows` | internal/audit/service.go:253-262 | each record becomes one row of safe cells, in order |
| `AuditExport.ExportPages` | internal/audit/service.go:247-266 | the loop, asking verifier and database anew for each page, writes the header and one row per record of the export and counts them, or fails with the first page that is refused |
| `AuditExport.Export` | internal/audit/service.go:234-272 | the file and the count are those of the specified export, or the refusal of the first page read that is refused or fails |
| `AuditExport.ExportIsExactIff` | internal/audit/service.go:234-272 | exactly when an export of a table that does not change holds the newest min(limit, N) matches without repeats |
| `AuditExport.ExportSkipsNothing` | internal/audit/service.go:247-266 | `NothingSkipped` for the rows of the table that meet the filter |
| `AuditExport.ExportSkipsNothingIff` | internal/audit/repository.go:64-71 | `NothingSkippedIff` for the rows of the table that meet the filter, an append inside any query included |
| `ExportRepeats.NoRepeatsIff` | internal/audit/service.go:246-266 | with matches added in front, an export of whole pages writes no record twice if and only if for any two of its pages the number of matches added between them lies outside the range that moves a row of the earlier page onto the later one |
| `AuditExport.ExportRepeatsNothingIff` | internal/audit/service.go:246-266 | the same for the rows of the table that meet the filter, when events are recorded as they occur |
| `AuditExport.RepeatsHappen` | internal/audit/service.go:246-266 | the witness: one event appended after the first page makes the export write a record twice |
| `AuditExport.SkipsHappen` | internal/audit/repository.go:64-71 | its witness: one append between the count and the select of the first page ends the export below its limit, without a record that matched throughout |
| `AuditExport.ExportIsolation` | internal/audit/service.go:234-272 | what a user is answered is determined by the rows of the own tenant and the application asked for, also while the table grows and grants change between pages |
| `RowTrigger.UpdatesAgreeIff` | migrations/mysql/000007_route_policies.up.sql:5 | on rows that agree the two update triggers accept alike and leave rows that agree if and only if the actor has no spaces at its ends |
| `RowTrigger.InsertsAgreeIff` | migrations/postgres/000007_route_policies.up.sql:6 | likewise the two insert triggers |
| `RowTrigger.DeletedAgainIff` | migrations/postgres/000007_route_policies.up.sql:7 | what agreement leaves open: deleting a deleted row again keeps its time on Postgres, and on MySQL if and only if it is the same time |
| `RowTrigger.SqlTrimIs` | migrations/mysql/000007_route_policies.up.sql:4-5 | the actor MySQL records is the one set without the spaces at its ends |
| `RowStamps.InsertStamps` | migrations/postgres/000007_route_policies.up.sql:6 | an inserted row carries the time of the statement and its actor as creation and last write, version 1 and no deletion |
| `RowStamps.UpdateStamps` | migrations/postgres/000007_route_policies.up.sql:7 | an updated row keeps its creation, carries the time and actor of the statement and the next version; what becomes of its deletion columns for each kind of update |
| `RowStamps.SetStamps` | internal/routepolicy/repository.go:199-264 | after a Set every policy or permission row is as it was or carries the time and actor of the statement, which the polled revision is read from; the policy always does, and rows keep their creation |
| `RowStamps.SyncStamps` | internal/routepolicy/repository.go:127-146 | likewise the route rows after a sync; the listed ones, and only those, carry the time they were discovered |
| `PolicyStore.LivePolicy` | internal/routepolicy/repository.go:210 | the live policy of the route if there is one, and none otherwise |
| `PolicyStore.RowOfKey` | internal/routepolicy/repository.go:236-243 | the one row of the policy for each key, soft-deleted rows included |
| `PolicyStore.FreshKey` | migrations/postgres/000007_route_policies.up.sql:20 | an insert the partial unique index lets through is for a key that had no row, not even a deleted one |
| `PolicyStore.SetRefsEffect` | internal/routepolicy/repository.go:236-261 | the live permissions of the policy become exactly those of the input; no row is removed, re-keyed or loses its creation columns; no row of another policy changes; keys stay unique over all rows |
| `PolicyStore.SetPolicyEffect` | internal/routepolicy/repository.go:209-235 | one policy row is inserted or updated, the version found was the expected one and is now one more, all other rows are as before |
| `PolicyStore.SetEffect` | internal/routepolicy/repository.go:199-264 | a successful Set keeps the table invariant and has both effects |
| `PolicyAccepts.AcceptedIff` | internal/routepolicy/repository.go:199-264 | the tables accept a Set exactly if the actor is not blank, the route is there, the version expected is the policy's, or 0 for none, a key named twice has a row, and on Postgres status and scopes are canonical, on MySQL a new policy's route has no deleted one |
| `PolicyAccepts.RefusedIff` | internal/routepolicy/repository.go:202-235 | a refusal says missing route, or stale version, exactly for these reasons |
| `PolicyStore.VersionCountsCommits` | internal/routepolicy/repository.go:199-264 | over every run of calls on any routes: the version counts the committed Sets of the route, the k-th expected the starting version plus k, and the live permissions are those of the last |
| `PolicyStore.RowsAreForever` | internal/routepolicy/repository.go:244-261 | over every run a permission row stays with its policy and key and remains the only row for them, so a revived key has its old row |
| `PolicyRepository.Repository.SelectPolicy` | internal/routepolicy/repository.go:210 | finds the live policy of the route |
| `PolicyRepository.Repository.IndexByKey` | internal/routepolicy/repository.go:240-243 | the loop builds the index of all rows of the policy by key |
| `PolicyRepository.Repository.WritePolicy` | internal/routepolicy/repository.go:212-235 | inserts or updates the policy row as specified, or refuses with nothing written |
| `PolicyRepository.Repository.GrantWanted` | internal/routepolicy/repository.go:244-254 | the loop revives or inserts each wanted permission as specified and collects the wanted keys |
| `PolicyRepository.Repository.RetireUnwanted` | internal/routepolicy/repository.go:255-261 | the loop retires exactly the earlier rows that are not wanted |
| `PolicyRepository.Repository.Set` | internal/routepolicy/repository.go:199-264 | the transaction leaves the specified tables or those it found; on an error of the statements always the latter, on an error of the COMMIT either, as the COMMIT took effect or not |
| `PolicyLocking.GuardNeverFires` | internal/routepolicy/repository.go:227-234 | between the SELECT FOR UPDATE and the UPDATE the locked row keeps its version: the guard of the UPDATE never finds it changed |
| `PolicyLocking.CommitAdvances` | internal/routepolicy/repository.go:209-261 | what a call wrote under its lock, committed into tables others have changed meanwhile, has the effect of the call run alone |
| `PolicyLocking.StepEffect` | internal/routepolicy/repository.go:199-264 | every statement of every concurrent call keeps the invariant and changes the tables only by committing |
| `PolicyLocking.ConcurrentVersionCountsCommits` | internal/routepolicy/repository.go:199-264 | over every interleaving with refusals and crashes the committed calls of a route form one order that expected consecutive versions, the version counts them and the permissions are those of the last |
| `PolicyLocking.OneCommitPerVersion` | internal/routepolicy/repository.go:213-226 | of any calls that expect the same version of a route at most one commits, racing creations included |
| `PolicyLocking.OutcomeIsCommit` | internal/routepolicy/repository.go:213-235 | a call ends committed exactly when it committed once, as its last step; refused and crashed calls changed nothing |
| `PolicyLocking.NoDeadlock` | internal/routepolicy/repository.go:210-218 | while a call is unfinished some call can run its next statement |
| `PolicySerial.SetRefsIsLocal` | internal/routepolicy/repository.go:236-261 | the permission statements, run on the policy's own rows alone, do to them what they do in the whole table |
| `PolicySerial.CommitIsSetTx` | internal/routepolicy/repository.go:209-261 | at its commit a call leaves exactly the tables that the whole transaction, run at that moment on what others committed meanwhile, would leave |
| `PolicySerial.Serializable` | internal/routepolicy/repository.go:199-264 | after any interleaving with refusals and crashes the tables are those of the committed calls run one after the other in commit order, none of them refused |
| `PolicyRefusals.RefusalIsSerialIff` | internal/routepolicy/repository.go:202-258 | a statement that refuses a call, for whatever reason, refuses it as the whole transaction, run on the tables of that moment, would be refused, if and only if the call, having found no policy, is not overtaken by one |
| `PolicyRefusals.RefusalsAreSerialIff` | internal/routepolicy/repository.go:199-264 | in every interleaving a refused call is answered as the whole transaction is on the tables of its refusing statement (a call that expects a version and found no policy: of its SELECT) if and only if that statement is not an INSERT that meets a policy committed since the SELECT; then it is answered with a database error where it is stale |
| `PolicyRefusals.RaceLoserIsNotTold` | internal/routepolicy/repository.go:213-220 | for any two creations of one route's policy, the first acceptable, a run reaches the state in which the first has committed and the INSERT of the second is answered with a database error although it is stale |
| `PolicyLoad.FillPermissions` | internal/routepolicy/repository.go:84-94 | the loop gives each policy read first its own references, and fails exactly when one it would use names no scope |
| `PolicyLoad.ScopesAreNamed` | internal/routepolicy/repository.go:97-108 | "tenant", "platform" and "principal" name the three scopes, nothing else names one |
| `PolicyLoad.Load` | internal/routepolicy/repository.go:65-96 | answers each policy active at the first SELECT once, with its own references as of the second, or fails exactly on a scope that is none |
| `PolicyLoad.LoadAfterSet` | internal/routepolicy/repository.go:65-96 | after a Set of an active policy a load answers the route once, with the expression of the input, the next version and exactly the permissions of the input: resource, action, and the scope whose name the input gives in words |
| `PolicyLoad.DisabledIsAbsent` | internal/routepolicy/repository.go:70 | a disabled policy is not answered |
| `PolicyLoad.ReferencesLandOnce` | internal/routepolicy/repository.go:84-94 | every live reference of an active policy is in the definition of that policy and in no other |
| `PolicyLoad.TornLoad` | internal/routepolicy/repository.go:70-77 | a commit between the two SELECTs that changes what an active policy grants makes Load answer a mixture the tables never held |
| `PolicyLoad.TornLoadIff` | internal/routepolicy/repository.go:70-77 | over every Set between the SELECTs: the answer is the old expression and version with the permissions after the Set, none if it disables the policy; it is the policy as it was if and only if those permissions are the old ones, and never the policy as it is |
| `PolicyLoad.TornLoadAnswersIff` | internal/routepolicy/repository.go:70 | and the route is answered exactly when its policy was active at the first SELECT |
| `PolicyLoad.LoadsAgainIff` | internal/routepolicy/repository.go:97-108 | after any Set, tables that loaded before fail to load if and only if the policy is active and a scope of the input is not canonical |
| `PolicyService.CheckRefs` | internal/routepolicy/service.go:75-85 | the validation loop accepts exactly the lists whose references, trimmed, are complete with distinct keys |
| `PolicyService.Service.Refresh` | internal/routepolicy/manager.go:38-59 | replaces the snapshot exactly when the load succeeds, and fails also when only the revision cannot be read |
| `PolicyService.Service.Set` | internal/routepolicy/service.go:64-121 | the tables left and the answer given for each refusal, fate of the COMMIT, refresh, operation log and closing read; the snapshot is loaded from the tables left or untouched; each answer exactly for its reason, told from the call and the tables |
| `PolicyService.AnswerIs` | internal/routepolicy/service.go:64-121 | unauthorized exactly without an actor, invalid if the call is not well posed, not found if the route is not there, conflict if another version is expected, unavailable if the write stands and the load, the revision or the log fails, internal if the COMMIT or only the closing read fails |
| `PolicyService.AcceptableIs` | internal/routepolicy/service.go:67-90 | validation accepts exactly the calls whose fields, without the blanks around them, are there, whose status and scopes are known words, whose keys differ, and whose expression compiles with them |
| `PolicyService.AnswerTells` | internal/routepolicy/service.go:90-120 | success and unavailable mean that the write stands, success also that the snapshot was loaded from it; unauthorized, invalid, not found and conflict mean that nothing was written |
| `PolicyService.InternalTellsNothing` | internal/database/transaction.go:40-42 | Internal leaves the caller not knowing: of two courses of events that differ in the COMMIT alone, both answered so, one has written; and a failing closing read is answered so after everything else succeeded |
| `PolicyService.PostgresAlwaysLoads` | migrations/postgres/000007_route_policies.up.sql:19 | on Postgres no Set can make Load fail |
| `PolicyService.MySqlPaddedScopeStopsLoad` | internal/routepolicy/service.go:75-89 | on MySQL a scope with a blank passes validation, is committed and makes every load fail |
| `PolicyService.LoadsCompiledIff` | internal/routepolicy/service.go:74-90 | after an active Set that validation accepts and that is committed the tables load, and load the definition that validation compiled, if and only if no field of its permissions has blanks at its ends |
| `PolicyService.PaddedKeyLoadsAnother` | internal/routepolicy/service.go:75-90 | the witness on Postgres: a key with a blank is accepted and committed, and every load answers the route with another definition than was compiled |
| `RouteSync.ActorIsRecorded` | internal/database/transaction.go:46-50 | an actor that a transaction accepts is one that both triggers accept |
| `RouteSync.RouteTable.SyncRoutes` | internal/routepolicy/repository.go:122-147 | the two loops leave the specified rows or those found; on an error of the statements always the latter, on an error of the COMMIT either |
| `RouteSync.SyncIsAssignment` | internal/routepolicy/repository.go:127-146 | apart from audit columns the statements come to one assignment: the pair of the first route stops, the listed routes run |
| `RouteSync.ActiveAreListed` | internal/routepolicy/repository.go:127-146 | the active rows of the pair are exactly the listed ids, and no id disappears |
| `RouteSync.SyncSucceeds` | internal/routepolicy/repository.go:127-146 | with stable ids and nothing soft-deleted a sync of a non-empty list succeeds |
| `RouteSync.OtherPairsUntouched` | internal/routepolicy/repository.go:129 | rows of another service or protocol are not changed at all, and every row keeps its place and creator |
| `RouteSync.SyncTwice` | internal/routepolicy/repository.go:122-147 | syncing the same list again changes nothing but audit columns and discovery times |
| `RouteSync.SyncsCommute` | internal/routepolicy/repository.go:122-147 | syncs of two different services or protocols may come in either order |
| `PolicyDialects.SetAgrees` | internal/routepolicy/repository.go:199-264 | a Set with canonical status and scopes and an actor without outer spaces succeeds on both databases or fails on both for the same reason, and leaves them in step |
| `PolicyActors.SetByAnyone` | internal/routepolicy/repository.go:199-264 | a Set is accepted of one actor if and only if it is accepted of any other |
| `PolicyActors.SyncByAnyone` | internal/routepolicy/repository.go:122-147 | likewise SyncRoutes |
| `PolicyDialects.AcceptsIff` | migrations/postgres/000007_route_policies.up.sql:19 | on tables in step Postgres accepts a Set exactly when MySQL does and every scope is canonical, whoever makes it |
| `PolicyDialects.SetInStepIff` | migrations/mysql/000007_route_policies.up.sql:3-12 | a Set that MySQL accepts leaves the two in step if and only if its scopes are canonical and its actor has no outer spaces |
| `PolicyDialects.SyncAgrees` | internal/routepolicy/repository.go:122-147 | likewise SyncRoutes |
| `PolicyDialects.SyncInStepIff` | migrations/mysql/000007_route_policies.up.sql:4-5 | a SyncRoutes is accepted by both or by neither, and leaves them in step if and only if its actor has no outer spaces |
| `PolicyDialects.InStepIff` | migrations/mysql/000007_route_policies.up.sql:4-12 | over every run of Set and SyncRoutes, by any actors, the two hold the same rows, versions, creators and deleters at every moment if and only if every call that MySQL accepts is by an actor without outer spaces and every such Set has canonical scopes; only timestamps differ |
| `PolicyDialects.SameStoreMeans` | migrations/mysql/000007_route_policies.up.sql:4-12 | in step: rows of one id are equal in everything but their times |
| `SnapshotCoherence.StepKeepsValid` | internal/routepolicy/manager.go:49-57 | every step of every refresh, writer and ticker keeps the invariant and makes no snapshot older |
| `SnapshotCoherence.NeverGoesBack` | internal/routepolicy/manager.go:49-51 | no node's snapshot goes back to older policies or references |
| `SnapshotCoherence.OwnWriteIsSeen` | internal/routepolicy/service.go:98-101 | after a writer's refresh succeeded its node's snapshot holds that write or newer data, forever |
| `SnapshotCoherence.SettlesAfterLastWrite` | internal/routepolicy/manager.go:49-57 | a successful refresh called after the last write makes the snapshot equal to the database for as long as nothing is written |
| `SnapshotCoherence.TickNoticesIff` | internal/routepolicy/manager.go:109-117 | a tick calls a refresh exactly when the newest revision differs from that of the generation the stored one was read from |
| `SnapshotCoherence.TickMissesIff` | internal/routepolicy/manager.go:109-117 | if every write has a revision of its own, a tick does nothing exactly when the stored revision was read after the last write |
| `SnapshotCoherence.StaleIsMissedIff` | internal/routepolicy/manager.go:51-56 | and a stale snapshot is left alone exactly when all the writes it misses were committed before its revision was read |
| `SnapshotCoherence.WriteBetweenReloadAndRevision` | internal/routepolicy/manager.go:51-57 | a reachable state in which the snapshot misses a write and ticks do not notice |
| `RouteIdCache.KeySeparates` | internal/routepolicy/manager.go:73 | the joined key tells its parts apart when the first three hold no NUL |
| `RouteIdCache.NulConfuses` | internal/routepolicy/manager.go:73 | and only then: parts with a NUL in any of the first three have the same key as some other parts |
| `RouteIdCache.Cache.RouteId` | internal/routepolicy/manager.go:72-83 | for any parts: answers the id of the first parts asked for under the key that had one, else the id computed now; errors are not remembered |
| `RouteIdCache.CachedIsFreshIff` | internal/routepolicy/manager.go:72-83 | with stable ids that is the id of these parts if and only if no other parts had one under the key before |
| `RouteIdCache.SeparableIsFresh` | internal/routepolicy/manager.go:72-83 | which is always so when the first three parts never hold a NUL |
| `RouteIdCache.NulGetsOtherId` | internal/routepolicy/manager.go:72-83 | and for every parts with a NUL there others exist whose id they get when those were asked for first |
| `Idempotency.Execute` | internal/transport/http/middleware.go:94-155 | the answer and the state of the key, told from the state found, the request and the failures: 400, 503 and 409 for their reasons, the stored answer for the same fingerprint, else the handler's, which is kept by its status; no other key changes |
| `Idempotency.ExecuteRefinesProtocol` | internal/transport/http/middleware.go:94-155 | one request run alone is a run of the concurrent protocol from any of its states, with the same state of the key and the same answer |
| `Idempotency.OnceUntilExpiry` | internal/transport/http/middleware.go:106-137 | over every run of concurrent requests the key is acquired at most once until it expires |
| `Idempotency.RunsAreAcquired` | internal/transport/http/middleware.go:130-137 | the handler runs for an acquisition only, once for each |
| `Idempotency.StoredAnswerStands` | README.md:224 | a stored answer is not overwritten until it expires, by whatever late worker |
| `Idempotency.ReplayIsFirstAnswer` | internal/transport/http/middleware.go:112-122 | every replay goes back to one run for the same fingerprint and equals its response but for the request id if and only if the status is 200 or it is an error without body |
| `Idempotency.OwnAnswersReplay` | internal/transport/http/response.go:19-33 | so in every run in which the handlers answer through OK and Fail only, every replay is the first answer |
| `Idempotency.OtherAnswersDiffer` | internal/transport/http/middleware.go:114-119 | the witness: for any unified response of another shape there is a run in which the replay differs from it |
| `Idempotency.ReplaysAgree` | internal/transport/http/middleware.go:112-122 | two replays of one run answer the same |
| `Outbound.Client.WaitBackoff` | internal/outbound/http.go:153-166 | waits the delay of the attempt, or at most it when interrupted |
| `Outbound.Client.Try` | internal/outbound/http.go:102-131 | one round: sends once, ends or goes on as specified, closes every body it does not hand on |
| `Outbound.Client.DoWithRetry` | internal/outbound/http.go:92-133 | at most one call unless the method is GET, HEAD, OPTIONS, PUT or DELETE or a key is given; then it goes on to the configured attempts exactly as long as each is an error, 429, 502, 503 or 504 and its wait is slept; which response or error the caller gets; never "exhausted"; every body obtained is closed once or handed to the caller; total wait at most the sum of the capped delays |
| `Outbound.Client.Execute` | internal/outbound/http.go:73-90 | an open breaker sends nothing; otherwise the caller gets the same response, still open, as without a breaker; the breaker counts one worth a retry as a failure and a cancelled call not at all |
| `Outbound.BackoffBounds` | internal/outbound/http.go:154-157 | a delay is positive and at most the configured maximum |
| `Outbound.BackoffIs` | internal/outbound/http.go:153-157 | the first delay is the initial one, each further one twice the one before, up to the maximum |
| `Outbound.VerdictOn` | internal/outbound/http.go:49-83 | the breaker counts a success exactly for a response not worth a retry, and nothing exactly for a cancelled call |

## Left out

- Get, Page and Detail of the route policies and Get of the audit service: one read with a field-by-field answer.
- Configuration, HTTP and gRPC plumbing, logging, metrics, cron, rate limits, redsync locks, JWT and TLS.
- The inside of the CEL compiler, gobreaker, NATS, Redis and `redact.JSON`, which are not part of this model: they are parameters or are modelled by the contract the code relies on.
- Ledger: retention by dropping partitions and the MySQL isolation level; the steps are those of READ COMMITTED.
- PolicyLocking: MySQL's gap locks and REPEATABLE READ snapshots; there a call can end in a deadlock error, which the model has as a crash, but its plain SELECT of the references could read an older snapshot. A concurrent `SyncRoutes` is not interleaved.
- PolicyRepository.Repository.Set: a statement that fails for a passing reason in the middle of the transaction is not a course of events of its own beside a failing COMMIT; it rolls back alike, but a call that would be stale can then be answered Internal. `PolicyLocking` has it as a crash.
- PolicyRefusals.RefusalsAreSerialIff: asks that stored policies have positive versions, as the CHECK on the column has them.
- PolicyStore: every trigger of a transaction stamps one time, where the databases take the time of each statement; the UUID generator may collide, and then the insert fails.
- PolicyLocking.ConcurrentVersionCountsCommits: ids from the UUID generator are taken to be distinct between calls and from what is stored.
- PolicyLoad.Load: the order of the definitions (ORDER BY route_id) and of the references, which the snapshot does not use.
- SnapshotCoherence: a snapshot that is replaced is replaced whole; the revision is any function of the tables, so two commits whose statement times are out of order may share one.
- RouteSync.SyncsCommute: asks for ids computed from the identity and for tables without soft-deleted routes, as the callers of `SyncRoutes` have them.
- Idempotency: JSON numbers are taken to survive decoding and encoding; a stored answer that cannot be decoded, and states the manager does not have, are not modelled; a fingerprint stands for the hashed text, whose parts `RouteIdCache.KeySeparates` keeps apart.
- Outbound: the back-off is computed in integers; the code goes through float64, which is exact below 2^53 nanoseconds.
- Text.Lower: ASCII letters only; collations, Unicode case and alternative spellings of a UUID are not modelled.
- AuditExport.Export: a file is its rows of cells; the quoting of encoding/csv and its write errors are not modelled.
- EventConsumer: starting, stopping and publishing.
- PolicyService.Service.Set: the detail that a successful call returns.
