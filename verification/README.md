# Financial wallet: a verified model

This project models the core of the financial wallet service and proves what its design promises.

* **Ledger.** `Ledger` is the committed database with the constraints of the migrations; `UseCases` is what each
  statement use case reads, checks and builds, and `Answers` says case by case, in terms of the tables alone, who may do
  what and what is written; `Transactions` runs any number of Create, CreateBatch, ReplaceTags and
  single-row writes at once, one SQL statement per step, with the account row locked from `SELECT ... FOR UPDATE` to the
  end, rollback possible before every step, and every read of a use case answered by any earlier committed state.
  `Guarantees` holds what is true in every reachable state, `TagRace` a run in which tag replacements overlap. `Accounting`, `Consistency` and `Reversals` are the theory
  behind it, `Import` is about whole OFX imports. `Repositories` and `Services` are the objects that update the database
  in place, proved against the same operations.
* **Idempotency.** `Idempotency` interleaves any number of requests with one key: `SET NX`, `GET`, the handler, then
  `SET` or `DEL`, with expiry at any time and a store that may fail.
* **Pagination.** `Pagination` compares cursor pages, offset pages and the plain sorted list, on a fixed and on a growing
  ledger.
* **Rate limiting.** `RateLimit` is the Lua script over a clock, and the two limiters that count on one key.
* **Permission cache.** `PermissionCache` is the load-through cache, first with loads and changes one after the other,
  then with every Redis call and query a step of its own and queries answered by a replica that may lag.
* **Text.** `Amount` parses OFX amounts, `Sgml` closes the open leaves of OFX 1.x bodies, `Like` escapes search text.
  `Strings` and `Int64` are the library functions and the int64 arithmetic they use.

Integers are mathematical; where the service computes in int64, `Int64.Wrap` is applied. Identifiers, body fingerprints
and clock readings are parameters. Database faults are parameters too: `failsAt` numbers the SQL statement of a
transaction that breaks, 0 for none.

Where the code and what is said about it differ, the model follows the code:

* The comment at `internal/infrastructure/web/middleware/idempotency.go:101` says that only an expiry makes Get find
  nothing after a lost Lock. `UnlockRace` is a run with no expiry and no Redis failure in which it happens after an
  unlock, and two handlers succeed; `SuccessBound` counts such passes, and `VanishingHasACause` names all causes.
* The migrations hold unique indexes on `reference_id` and on (account, external id). So interleaved reversals of one
  statement cannot both commit, and an import whose file repeats an FITID fails as a whole instead of skipping the repeat
  (`ImportSucceedsIff`).
* `ReplaceTags` takes no lock, and its DELETE skips rows that another replacement deleted and put back meanwhile. So it
  leaves exactly the requested set if and only if no tag row was added between its DELETE and its commit
  (`ReplaceTagsExact`), and the ten-tag limit is lost otherwise (`OverlappingReplacementsUnite`, `CommonTagSurvives`).
* Two limits that the code does not mention make imports fail: FITIDs of more than 255 characters, and more than 5957 new
  statements, whose columns exceed the bind parameters of one INSERT (`ImportSucceedsIff`, `BatchIsCreateByCreate`).
* The configuration promises AuthRequests per AuthWindow; the global and the auth limiter count on one key, so an auth
  route accepts about half of either limit per global window when requests do not overlap (`AuthAccepts`), and anything
  from none to half of the auth limit or all of the global one when they do (`OverlappingAccepts`, `OverlappingExtremes`).
* The permission cache promises that a revoked permission is gone after invalidation. A load that read before the change
  and writes after the deletion brings it back (`RevokedAnswerReturns`), and so does one that reads a lagging replica
  afterwards (`LaggingReplicaReturns`); without either, `InvalidationHolds`. Deleting
  a role invalidates nothing (`DeletedRoleIsServedOn`), and the configuration check lets a time to live of zero pass,
  with which nothing expires (`NoTtlNoExpiry`).
* `ParseAmount` accepts amounts whose cents overflow int64 (`OverflowIff`, `SmallWholeWraps`) and extra signs
  (`ExtraSigns`).
* `processLine` closes a leaf that is closed already a second time, and a line of 64 KiB ends the output without an error
  (`BalancedIffUnclosed`, `LongLineTruncates`).

`dafny verify dfyconfig.toml` checks everything.

## Model

| member | source | states |
|---|---|---|
| Guarantees.Conservation | internal/infrastructure/db/postgres/repository/statement.go:168-230 | In every state of every interleaving an account's committed balance is the signed sum of its committed statements modulo 2^64, and that sum itself exactly when it fits int64: no lost update, no trace of rolled-back work |
| Guarantees.BalanceChain | internal/infrastructure/db/postgres/repository/statement.go:431-462 | In commit order each balance_after is the account's previous one plus the signed amount, and the last one is the balance |
| Guarantees.Serializable | internal/infrastructure/db/postgres/repository/statement.go:401-492 | The committed database of any interleaving, from any database the migrations can leave, is what the committed operations leave when run one after the other, in commit order |
| Guarantees.AppendOnly | internal/infrastructure/db/postgres/repository/statement.go:521-599 | Between any two moments of a run committed statements keep their place and every accounting column, whatever category, tag or account writes ran in between; owners and category types never change |
| Guarantees.CommitNeverBlocks | internal/infrastructure/db/postgres/repository/statement.go:217-229 | When a transaction has run all its statements, the whole posting is accepted by the database as it is then, whatever the others did, so it can commit |
| Guarantees.UncontendedCommits | internal/infrastructure/db/postgres/repository/statement.go:168-230 | From any reachable state without other postings, a posting that the database accepts runs through its six statements and commits exactly its effect |
| Guarantees.RollbackLeavesNoTrace | internal/infrastructure/db/postgres/repository/statement.go:168-230 | A transaction can roll back before every step, and then the database, its history and every other transaction are as without it |
| Guarantees.CategoryChangeRuns | internal/usecases/statement/update_category.go:45-103 | In every reachable state a category change that the tables allow goes through and changes that column of that statement only |
| Guarantees.TagReplacementStarts | internal/usecases/statement/replace_tags.go:41-94 | A replacement that the tables allow can start, and asks for exactly the requested tags |
| Guarantees.CategoryDeletionRuns | internal/usecases/category/delete.go:30-91 | A user's own category that no statement, committed or in flight, carries can be deleted |
| Guarantees.ExternalIdsUnique | internal/infrastructure/db/postgres/migration/20260416002257_add_external_id_to_statements.sql:10 | However many imports race, an account never holds one external id twice |
| Guarantees.ReversalChains | internal/usecases/statement/reverse.go:76-134 | However many reversals race, each statement is reversed at most once, by a later statement of the same account with the same amount and the opposite type |
| Guarantees.BalanceIsStandingSum | internal/usecases/statement/reverse.go:76-134 | A balance is the sum over the original statements that were reversed an even number of times |
| Guarantees.LateReversalIsRefused | internal/infrastructure/db/postgres/migration/20260416002257_add_external_id_to_statements.sql:11 | Of two reversals that both found none, the slower one cannot insert its row |
| Guarantees.MetadataSound | internal/usecases/statement/metadata.go:41-107 | In every reachable state a statement's category exists, has its type and is a system default or the account owner's; its tags exist and are visible to the owner, even though each check read some older snapshot |
| Guarantees.AtMostTenTags | internal/usecases/statement/metadata.go:17-31 | As long as every tag replacement removed all the tag rows there were at its commit, no statement has more than ten tags |
| Guarantees.ReplaceTagsExact | internal/infrastructure/db/postgres/repository/statement.go:558-599 | What a pending replacement still removes are tag rows of its statement, and its commit leaves exactly the requested tags if and only if they are all the rows there are: no row was added, or put back, since its DELETE |
| Guarantees.OverlappingReplacementsUnite | internal/infrastructure/db/postgres/repository/statement.go:578-597 | From any reachable state two overlapping replacements of a statement form a run in which, after the first commits, the second can commit exactly if the requests share no tag, and then leaves the union of both, whatever tags there were before |
| TagRace.CommonTagSurvives | internal/infrastructure/db/postgres/repository/statement.go:578-597 | A whole run: a statement tagged "a" is replaced by "a" again and, overlapping, by "c", and ends with both |
| Transactions.RunSound | internal/infrastructure/db/postgres/repository/statement.go:168-230 | The invariant (serial history, consistent database, transactions in flight that still satisfy every constraint they were checked against) holds in every state of every run |
| Transactions.TxSoundAfterWrite | internal/infrastructure/db/postgres/repository/account.go:250-302 | An account, category or tag write that did not have to wait leaves every transaction in flight as valid as before |
| Transactions.TxSoundAfterCommit | internal/infrastructure/db/postgres/repository/statement.go:226-229 | The commit of one transaction leaves every other one in flight as valid as before |
| Transactions.CommitIsPost | internal/infrastructure/db/postgres/repository/statement.go:175-229 | What a transaction assembled step by step is what the whole posting would write if it ran alone at its commit |
| Transactions.TagsLater | internal/infrastructure/db/postgres/repository/statement.go:578-597 | Every committed operation leaves a statement the tags it had, less the rows the operation deletes, plus those it adds |
| Consistency.PrepareSuits | internal/usecases/statement/create.go:47-148 | What create, reverse or import hand over after looking at snapshots of any age still suits the database of the moment it is written |
| Consistency.PrepareCategorySuits | internal/usecases/statement/update_category.go:45-97 | The same for a category change |
| Consistency.PrepareTagsSuits | internal/usecases/statement/replace_tags.go:41-85 | The same for a tag replacement |
| Consistency.ApplyKeepsConsistent | internal/infrastructure/db/postgres/repository/category.go:192-241 | Every committed operation that suits the database keeps it consistent: unique keys, books, reversals, categories, tags, seeded defaults |
| Consistency.ApplyKeepsCap | internal/infrastructure/db/postgres/repository/statement.go:558-599 | Every committed operation keeps the ten-tag cap, a replacement whose DELETE did not see all the tag rows excepted |
| Accounting.BalanceIsTotal | internal/infrastructure/db/postgres/repository/statement.go:188-195 | When the books hold, a balance is the wrapped total of the account, and the exact total if and only if that fits int64 |
| Accounting.PostingChains | internal/infrastructure/db/postgres/repository/statement.go:425-462 | Appending the rows of a batch extends the balance_after chain of its account and ends it at the new balance; other accounts' chains stay |
| Accounting.ApplyKeepsBooks | internal/infrastructure/db/postgres/repository/statement.go:401-492 | Every committed operation keeps balance column and balance_after chain in agreement |
| Accounting.BatchIsCreateByCreate | internal/infrastructure/db/postgres/repository/statement.go:401-492 | Up to 5957 statements, the most whose 11 columns fit the 65535 parameters of one SQL statement, one CreateBatch gives the result, rows, balances and errors of one Create per statement; beyond that it always fails |
| Ledger.MetadataKeepsBooks | internal/infrastructure/db/postgres/repository/statement.go:516-551 | No committed operation but a posting touches an accounting column, a balance or the number of rows |
| Ledger.ApplyExtends | internal/infrastructure/db/postgres/repository/category.go:187-215 | A committed operation never removes an account, category or tag identity and never changes an owner or a category's type |
| Reversals.ChainSumIsRootOrZero | internal/usecases/statement/reverse.go:104-126 | A chain of reversals sums to its root's signed amount after an even number of reversals and to 0 after an odd one |
| Reversals.TotalIsStandingSum | internal/usecases/statement/reverse.go:76-134 | The sum of all statements of an account is the sum of the roots reversed an even number of times |
| Reversals.SignAlternates | internal/domain/statement/vo/type.go:37-42 | Types alternate along a chain, so the sign of a row is its root's sign at even depth and the opposite at odd depth |
| Reversals.DepthCounts | internal/usecases/statement/reverse.go:90-102 | A chain is one line: a row is preceded by exactly as many rows of its chain as there are reversals between it and the root |
| UseCases.ResolveTagsExact | internal/usecases/statement/metadata.go:76-107 | Comparing two lengths suffices: tags are granted exactly when at most ten distinct ones are asked for and each is visible, and then exactly the requested set is returned |
| UseCases.ResolveSpelledExact | pkg/vo/id.go:24-29 | The same for identifiers as the caller spelled them: two spellings of one tag are refused, and otherwise the spelling makes no difference |
| UseCases.CanonicalSpelling | pkg/vo/id.go:24-29 | With every identifier in its canonical spelling both checks agree |
| UseCases.FindStatement | internal/infrastructure/db/postgres/repository/statement.go:250-263 | A statement is found exactly when one with the id exists, and the one found has it |
| UseCases.AccountAnswer | internal/usecases/statement/create.go:62-75 | An account is granted exactly if it is active and the caller's own, or the caller is another service; a missing or inactive one is not found, and a foreign one answers as a missing statement |
| Answers.CategoryAnswer | internal/usecases/statement/metadata.go:41-69 | A category is granted exactly if it is live, a default or the owner's, and of the statement's type; granted is the requested one, none for none or the empty string; each refusal has its own error |
| Answers.TagsAnswer | internal/usecases/statement/metadata.go:76-107 | Tags are granted exactly if at most ten different ones are asked for and each is live and a default or the owner's; the limit is reported first |
| Answers.PostOne | internal/infrastructure/db/postgres/repository/statement.go:168-230 | One statement can be posted exactly if the account exists, the amount is positive, id, reference and external id are new, and reference, category and tags exist; a credit adds to the balance, a debit takes away, in int64, and the row is appended with the new balance |
| Answers.CreateAnswer | internal/usecases/statement/create.go:47-148 | A create is accepted exactly if the account is usable, the type is "credit" or "debit", the amount positive, and category and tags are granted; the draft has exactly the requested columns, and otherwise the first of these checks names the error |
| Answers.ReverseAnswer | internal/usecases/statement/reverse.go:76-134 | A reversal is accepted exactly if the account is usable, the statement is on it and no row refers to it; when only the last fails the answer is "already reversed"; the draft has equal amount, opposite type, the reference and the default category for returns |
| Answers.RecategorizeAnswer | internal/usecases/statement/update_category.go:45-97 | What a category change answers, check by check, in terms of the statement's row and its account |
| Answers.RetagAnswer | internal/usecases/statement/replace_tags.go:41-85 | The same for a tag replacement |
| Answers.OwnCategoryAnswer | internal/usecases/category/update.go:29-89 | A default category is read-only, another user's is not found, and only the user's own is handed out |
| Answers.DeleteCategoryAnswer | internal/usecases/category/delete.go:30-91 | A deletion goes on exactly for the user's own live category that no statement carries |
| Answers.ImportAnswer | internal/usecases/statement/import.go:33-137 | With fresh ids an import succeeds exactly if the account is usable and among the new transactions no amount is -2^63, no FITID is repeated or longer than 255 characters, and there are at most 5957 |
| Answers.ImportAppends | internal/usecases/statement/import.go:97-172 | What a successful import leaves, column by column: one row for each non-zero transaction whose FITID the account lacks, in file order, with its amount, type, description, bank time and running balance, and no other change |
| Import.ImportSucceedsIff | internal/usecases/statement/import.go:78-137 | With fresh ids an import fails only for a missing or foreign account, or for an unskipped amount of -2^63 cents, an unskipped FITID that the file itself repeats or that has more than 255 characters, or more than 5957 new statements; a failed import writes nothing |
| Import.ImportEffect | internal/usecases/statement/import.go:97-137 | A successful import adds exactly the new (FITID, amount) pairs of the file, moves the balance by their sum, and total = created + skipped |
| Import.NothingNewSucceeds | internal/usecases/statement/import.go:97-126 | An import of a file that holds nothing new succeeds |
| Import.ReimportDoesNothing | internal/usecases/statement/import.go:97-137 | Importing a file again succeeds, creates 0 and leaves the database as it was |
| Import.OrderDoesNotMatter | internal/usecases/statement/import.go:78-137 | Two files whose shared FITIDs agree give the same balance and the same bank transactions in either order |
| Import.OrderDoesNotMatterForSuccess | internal/usecases/statement/import.go:78-137 | When a then b succeed, b then a succeed exactly if b alone has at most 5957 transactions to import |
| Import.MapFailsOnlyAtMin | internal/usecases/statement/import.go:141-172 | Type and absolute amount of a mapped transaction give back its signed amount; only -2^63, which has no int64 opposite, is refused |
| Import.Picked | internal/usecases/statement/import.go:97-117 | The transactions that become statements are exactly those not skipped, in file order, and with the skipped ones they make up the file |
| Repositories.StatementRepository.Create | internal/infrastructure/db/postgres/repository/statement.go:168-230 | Commits exactly the posting of one statement and returns the new balance, or reports the error and leaves the database untouched, whichever SQL statement fails |
| Repositories.StatementRepository.Assemble | internal/infrastructure/db/postgres/repository/statement.go:425-462 | The loop ends with the final balance of the batch, one placeholder tuple per statement and the arguments of the rows with their running balances |
| Repositories.StatementRepository.CreateBatch | internal/infrastructure/db/postgres/repository/statement.go:401-492 | Commits exactly the posting of the whole list through its numbered placeholders, or nothing, too many bind parameters included; an empty list returns 0 |
| Repositories.InsertWritesRows | internal/infrastructure/db/postgres/repository/statement.go:450-467 | Binding the placeholders of the batch INSERT to its arguments gives back the rows it was built from |
| Repositories.ParametersAreABijection | internal/infrastructure/db/postgres/repository/statement.go:450-461 | The placeholder numbers of n rows name each argument 1 to 11n exactly once |
| Repositories.ArgumentAt | internal/infrastructure/db/postgres/repository/statement.go:450-461 | Column k of row i is argument 11i+k |
| Repositories.UntaggedRowsOk | internal/infrastructure/db/postgres/repository/statement.go:467-477 | The constraints checked at the row INSERT do not depend on the tag rows inserted afterwards |
| Repositories.StatementRepository.UpdateCategory | internal/infrastructure/db/postgres/repository/statement.go:521-551 | On success the rows of that id have the category and every other column, row and table is as before; a category that no longer exists is never written; a suitable change keeps the whole database consistent |
| Repositories.StatementRepository.ReplaceTags | internal/infrastructure/db/postgres/repository/statement.go:558-599 | Run alone, leaves exactly the given tags, or nothing changed: a repeated or dead tag fails the whole call |
| Repositories.AccountRepository.Create | internal/infrastructure/db/postgres/repository/account.go:95-107 | A new account has its owner, balance 0 and is active; an id in use is refused; nothing else changes |
| Repositories.AccountRepository.Update | internal/infrastructure/db/postgres/repository/account.go:250-277 | Succeeds exactly for an existing account and leaves it with the given name and active flag and everything else as it was; the database stays consistent |
| Repositories.AccountRepository.Delete | internal/infrastructure/db/postgres/repository/account.go:279-302 | Only an active account is deleted; it is still there afterwards, inactive, with its money, and cannot be deleted again; the database stays consistent |
| Repositories.CategoryRepository.Create | internal/infrastructure/db/postgres/repository/category.go:79-97 | A new category is live, of that type and the user's own; an id in use is refused; nothing else changes |
| Repositories.CategoryRepository.Update | internal/infrastructure/db/postgres/repository/category.go:192-215 | Succeeds exactly for a live category, which then has the name; type, owner and existence of every category stay, no other table changes, and the database stays consistent |
| Repositories.CategoryRepository.Delete | internal/infrastructure/db/postgres/repository/category.go:222-241 | Succeeds exactly for a live category that no statement carries; it is gone then, all others stay with type and owner, and deleting a user's category keeps the database consistent |
| Repositories.TagRepository.Create | internal/infrastructure/db/postgres/repository/tag.go:74-92 | A new tag is live and the user's own; an id in use is refused; nothing else changes |
| Repositories.TagRepository.Update | internal/infrastructure/db/postgres/repository/tag.go:212-235 | Succeeds exactly for a live tag, which then has the name; nothing else changes |
| Repositories.TagRepository.Delete | internal/infrastructure/db/postgres/repository/tag.go:237-253 | A deleted tag is gone and on no statement; every other tag of every statement, every accounting column and every account stay; the database stays consistent |
| Services.CreateUseCase.Execute | internal/usecases/statement/create.go:47-148 | Run alone, succeeds exactly if account, type, amount, category and tags are in order, no fault occurs and the id is new, and otherwise reports the first failing check; the new row is a credit exactly for "credit", has the requested amount, text, time, category and tags, and the balance is the wrapped old one plus or minus the amount |
| Services.ReverseUseCase.Execute | internal/usecases/statement/reverse.go:31-143 | Run alone in a consistent database without a fault and with a new id, succeeds exactly if the account is usable, the statement is on it and no row refers to it; "already reversed" when only that fails; the new row has the original's amount, the opposite type and the reference, and the balance moves by it |
| Services.ImportUseCase.Execute | internal/usecases/statement/import.go:33-138 | Run alone, the two loops and the batch write succeed exactly under the conditions of ImportAnswer and then leave exactly the rows, columns, balance and counts that the file asks for |
| Services.ImportUseCase.KnownFitids | internal/usecases/statement/import.go:78-95 | Asking for the non-empty FITIDs of the file finds exactly those the account holds |
| Services.MapOfxTransaction | internal/usecases/statement/import.go:141-172 | The local updates compute the mapped statement of the specification |
| Services.UpdateCategoryUseCase.Execute | internal/usecases/statement/update_category.go:45-103 | Run alone, refuses by the first failing check of statement, owner and category, and otherwise leaves exactly the requested category on that statement and no other change |
| Services.ReplaceTagsUseCase.Execute | internal/usecases/statement/replace_tags.go:41-94 | Run alone, refuses by the first failing check of statement, owner and tags, and otherwise leaves exactly the requested tags, at most ten, and no accounting column changed |
| Services.CategoryUseCases.Rename | internal/usecases/category/update.go:29-89 | Run alone, renames only the user's own live category, with one error for defaults and another for missing and foreign ones |
| Services.CategoryUseCases.Delete | internal/usecases/category/delete.go:30-91 | Run alone, deletes only the user's own live category that no statement carries, with its own error for one in use |
| Services.DedupTagIds | internal/usecases/statement/metadata.go:17-31 | The loop over the seen map is the list of first appearances |
| Services.FirstSeenKeepsAll | internal/usecases/statement/metadata.go:17-31 | Deduplication keeps every id, each once |
| Services.FirstSeenInOrder | internal/usecases/statement/metadata.go:17-31 | A tag that is new at its place comes right after the different tags in front of it |
| Services.ResolveTagList | internal/usecases/statement/metadata.go:76-107 | The list version grants, refuses and reports like the set version, and never returns a tag twice |
| Services.StatementEntity.NewStatement | internal/domain/statement/entity.go:49-60 | A new statement has no reference, no external id, balance 0 and both times now |
| Services.StatementEntity.NewReversalStatement | internal/domain/statement/entity.go:63-76 | The same with a reference |
| Services.StatementEntity.NewImportedStatement | internal/domain/statement/entity.go:79-90 | The same with an external id and the bank's posting time |
| Idempotency.SuccessBound | internal/infrastructure/web/middleware/idempotency.go:49-163 | Over all interleavings of any number of requests with one key, handler runs that end in 200 to 499 number at most 1 + expiries + requests that went past the store |
| Idempotency.HandlerBound | internal/infrastructure/web/middleware/idempotency.go:49-163 | Handler runs of any outcome number at most that plus the unlocks |
| Idempotency.ExpiriesTakeTime | pkg/idempotency/redisstore/store.go:32-87 | Each expiry used up a full time to live: no lock expires within the lock's time, no answer within the answer's, and nothing where that time is zero |
| Idempotency.ExactlyOnce | internal/infrastructure/web/middleware/idempotency.go:89-163 | Without expiry and without a request past the store one answer at most is kept, and every finished request got that status and body with the same fingerprint, 422 with a different one, 409 only if the lock was held when it looked, or its own answer, kept exactly if that is 200 to 499 |
| Idempotency.LookupAnswers | internal/infrastructure/web/middleware/idempotency.go:89-129 | In every run a Get that meets a completed entry ends the request with exactly that status and body if the fingerprints agree and with 422 if not; a held lock gives 409, and nothing found runs the handler |
| Idempotency.ConflictMeansProcessing | internal/infrastructure/web/middleware/idempotency.go:106-112 | A request ends with 409 only if the lock was held when it looked |
| Idempotency.LateArrivals | internal/infrastructure/web/middleware/idempotency.go:89-163 | Without expiry and without a request past the store a kept answer stays, and a request that arrives after it ends with it or, for another body, with 422, never with 409 and never in its handler |
| Idempotency.FirstRuns | internal/infrastructure/web/middleware/idempotency.go:89-114 | A request that finds the key free locks it and runs its handler, and one that comes meanwhile gets 409 |
| Idempotency.AnswerIsRecorded | internal/infrastructure/web/middleware/idempotency.go:132-163 | The handler's answer reaches its client and is kept exactly if it is 200 to 499; otherwise the key is free again |
| Idempotency.RetryIsReplayed | internal/infrastructure/web/middleware/idempotency.go:116-129 | A retry of a kept answer gets exactly that answer, with another body 422, and no handler runs |
| Idempotency.StoreFailureRunsHandler | internal/infrastructure/web/middleware/idempotency.go:77-98 | When Redis fails the handler runs unprotected and its answer reaches the client |
| Idempotency.VanishingHasACause | internal/infrastructure/web/middleware/idempotency.go:100-104 | Get finds nothing after a lost Lock only if an entry expired or an answer was not kept |
| Idempotency.UnlockRace | internal/infrastructure/web/middleware/idempotency.go:100-104 | A run with no expiry and no Redis failure in which two handlers succeed |
| Idempotency.RedisStore.Lock | pkg/idempotency/redisstore/store.go:32-56 | Acquires exactly when no live entry exists, and is there until the lock's time to live is over, for good if that is zero; a live entry and all other keys stay |
| Idempotency.RedisStore.Get | pkg/idempotency/redisstore/store.go:60-75 | Returns the live entry, none when it expired |
| Idempotency.RedisStore.Complete | pkg/idempotency/redisstore/store.go:78-87 | Replaces whatever the key held, whoever locked it, by the completed answer with the long time to live, or for good if that is zero |
| Idempotency.RedisStore.Unlock | pkg/idempotency/redisstore/store.go:90-92 | Removes whatever the key held, whoever locked it |
| Idempotency.ResponseWriter.Write | internal/infrastructure/web/middleware/idempotency.go:182-190 | What is stored for replay is what the client was sent |
| Pagination.ListingIsExact | internal/infrastructure/db/postgres/repository/statement.go:322-339 | A listing holds exactly the matching rows, strictly newest first by (posted_at, id) |
| Pagination.ListingHolds | internal/infrastructure/db/postgres/repository/statement.go:267-299 | The rows of a listing are exactly those of the ledger with the account asked for, the type, a posting time within the bounds, the category, and a tag in common when tags are asked for |
| Pagination.CursorHolds | internal/infrastructure/db/postgres/repository/statement.go:326-333 | Those behind a cursor are exactly the ones posted earlier, or at the same instant with a smaller id |
| Pagination.NewestOnTop | internal/infrastructure/db/postgres/repository/statement.go:322-339 | Every row is older than the ones above it, by time and then by id |
| Pagination.ListingCounts | internal/infrastructure/db/postgres/repository/statement.go:299-320 | The total is the number of such rows |
| Pagination.AccountsShareNothing | internal/infrastructure/db/postgres/repository/statement.go:270 | Listings of two accounts share no row |
| Pagination.CursorIsSuffix | internal/infrastructure/db/postgres/repository/statement.go:326-333 | A cursor query returns exactly the part of the plain list that follows the cursor's row |
| Pagination.WalkIsPaging | internal/infrastructure/db/postgres/repository/statement.go:322-374 | On a fixed ledger the k-th cursor page is the k-th offset page, and the walk makes exactly floor(N/L)+1 requests |
| Pagination.AllPagesShowAll | internal/usecases/statement/list.go:156-159 | The first p pages concatenate to the full sorted list if and only if p is at least totalPages |
| Pagination.FirstPagesArePrefix | internal/domain/statement/filter.go:48-50 | The first p offset pages are the first p*L rows |
| Pagination.NothingTwice | internal/infrastructure/db/postgres/repository/statement.go:322-374 | A cursor walk over a growing ledger shows no statement id twice |
| Pagination.CompletedWalkShowsAll | internal/infrastructure/db/postgres/repository/statement.go:368-374 | A completed walk returns every matching statement that was there at its first page exactly once |
| Pagination.PagesDescend | internal/infrastructure/db/postgres/repository/statement.go:326-333 | Everything on a later page is older than everything on an earlier one, however the ledger grew |
| Pagination.RunGrows | internal/infrastructure/db/postgres/repository/statement.go:301-306 | The snapshots that any run of the ledger shows, in the order they were taken, grow in the sense the walk assumes |
| Pagination.CursorRoundTrip | internal/usecases/statement/list.go:181-205 | Decoding the cursor of a page gives back its last row's key |
| Pagination.ListFilter.Normalize | internal/domain/statement/filter.go:35-46 | Page is at least 1 and limit between 1 and 100 afterwards, and good values stay |
| Pagination.ListFilter.List | internal/infrastructure/db/postgres/repository/statement.go:299-383 | A page holds only rows asked for: those of the sorted list from (page-1)*limit on, or those right behind the cursor, at most limit of them; the next cursor is the last row's, exactly after a full page; the total counts the rows asked for in another snapshot |
| RateLimit.RedisStore.Allow | pkg/ratelimit/redisstore/store.go:13-59 | INCR, PTTL and PEXPIRE leave the counter of the specification; allowed means the count is within the limit; remaining is never negative |
| RateLimit.Handle | internal/infrastructure/web/middleware/ratelimit.go:34-81 | One counter per client, method and route decides between next and 429; an unreachable store gives 503 when failing closed and next otherwise |
| RateLimit.KeysTellApart | internal/infrastructure/web/middleware/ratelimit.go:36-46 | Two requests count on one key if and only if client, method and matched route agree, though addresses and routes may hold colons |
| RateLimit.KeyExpires | pkg/ratelimit/redisstore/store.go:13-21 | With a window of at least 1 ms every key carries an expiry at most one window away, after every request of every run |
| RateLimit.WindowAdmits | pkg/ratelimit/redisstore/store.go:13-59 | A window of n requests admits exactly min(n, L): the first ones |
| RateLimit.AnyStretchAdmits | pkg/ratelimit/redisstore/store.go:13-59 | Any stretch of time as long as the window admits at most 2L-1 requests |
| RateLimit.StretchBoundIsReached | pkg/ratelimit/redisstore/store.go:13-59 | That bound is reached for every limit and every window of at least 2 ms |
| RateLimit.NoWindowNoLimit | pkg/ratelimit/redisstore/store.go:16-19 | With a window below 1 ms the script deletes the key it has just set, so every request counts as the first |
| RateLimit.AuthAccepts | internal/infrastructure/web/router/router.go:86-112 | Of n requests handled one at a time in one lifetime of the shared key an auth route accepts exactly min(n, floor(A/2), floor((G+1)/2)), and that lifetime is the global window |
| RateLimit.OverlappingAccepts | internal/infrastructure/web/router/router.go:86-112 | However n requests overlap in one lifetime of the key, an auth route accepts at most min(n, G, floor(A/2)) |
| RateLimit.OverlappingExtremes | internal/infrastructure/web/router/router.go:86-112 | If A is at most G, A overlapping requests can all be refused; if A is at least 2G, G overlapping requests can all be accepted |
| PermissionCache.Service.Load | internal/infrastructure/web/middleware/permission_loader.go:29-82 | Serves the live cached answer or else the replica's and caches it; a cache in step with the replica stays so and the answer is then the replica's |
| PermissionCache.LoadsAreDirect | internal/usecases/role/assign.go:72-77 | Over any history of loads, assignments and revocations that do not overlap, with an up-to-date replica, no failure and a moving clock, every load returns what a direct query would |
| PermissionCache.Service.Apply | internal/usecases/role/cache.go:15-29 | An assignment is accepted exactly for an existing role the user lacks, a revocation for one he has, a deletion for an existing role; afterwards exactly that association is there or gone, an assigned role's permissions and name are in the answers, both cached answers of its user are deleted, and except for a role deletion a fresh cache stays fresh |
| PermissionCache.QueryMeans | internal/infrastructure/db/postgres/repository/role.go:250-290 | The permissions of a user are exactly those of the roles he has, and so are the role names |
| PermissionCache.AssignGrants | internal/infrastructure/db/postgres/repository/role.go:203-225 | An assignment adds to the user's answers exactly what the role gives |
| PermissionCache.RevokeRemoves | internal/infrastructure/db/postgres/repository/role.go:227-248 | A revocation takes from the user's answers exactly what no other role of his gives |
| PermissionCache.DeleteRoleRemoves | internal/infrastructure/db/postgres/repository/role.go:340-361 | A role deletion takes from every user exactly what no other role of his gives |
| PermissionCache.AssignmentIsSeen | internal/usecases/role/assign.go:40-80 | In such a history the next load of a user who was given a role returns what he had and what the role gives |
| PermissionCache.RevocationIsSeen | internal/usecases/role/revoke.go:39-79 | The next load of a user who lost a role returns exactly what his other roles give |
| PermissionCache.CacheFailures | internal/infrastructure/web/middleware/permission_loader.go:29-82 | A cache that cannot be read is passed by, and one that cannot be written leaves answer and cache alone |
| PermissionCache.OnlyItsUser | internal/usecases/role/assign.go:72-77 | Assigning or revoking changes the answers about that user only |
| PermissionCache.ServedWasTrue | internal/infrastructure/web/middleware/permission_loader.go:29-82 | Whatever fails, however far the replica lags and however loads and changes interleave, a cached answer was the database's own up to that lag before some loader read it, and was cached less than the time to live before it was served |
| PermissionCache.StalenessBound | internal/infrastructure/web/middleware/permission_loader.go:29-82 | With loads of at most a given delay and a replica at most a given lag behind, a served answer was true less than time to live plus delay plus lag earlier |
| PermissionCache.InvalidationHolds | internal/usecases/role/revoke.go:71-76 | After a deletion that found no load under way with an older answer, and as long as no later load reads an older one from the replica, no answer older than the given version is ever served again for that key |
| PermissionCache.OvertakenLoadRevives | internal/infrastructure/web/middleware/permission_loader.go:40-51 | Any load under way when the key is deleted can put its old answer back and have it served |
| PermissionCache.RevokedAnswerReturns | internal/usecases/role/revoke.go:71-76 | A whole run without failures and without lag in which a revoked permission is served after both deletions succeeded |
| PermissionCache.LaggingReplicaReturns | internal/infrastructure/db/postgres/repository/role.go:250-267 | A whole run without failures, and without a load under way at either deletion, in which the first load afterwards reads a lagging replica and the revoked permission is served |
| PermissionCache.DeleteRoleChanges | internal/infrastructure/db/postgres/repository/role.go:340-361 | Deleting a role changes an answer exactly when the role was the only source of some part of it |
| PermissionCache.DeletedRoleIsServedOn | internal/usecases/role/delete.go:50-53 | After a role deletion a cached answer is served on until it expires, and is wrong exactly when the role was the only source of some part of it |
| PermissionCache.NoTtlNoExpiry | config/config.go:330-340 | With a time to live of zero a cached answer never expires |
| Amount.ParseAmount | pkg/ofx/amount.go:15-92 | The stepwise parse with its padding loop and its wrapping sums gives the specified result |
| Amount.LiteralParses | pkg/ofx/amount.go:15-92 | Every signed literal with at most two decimals, with any space around it, parses to its value in cents modulo 2^64, unless its whole part is too large |
| Amount.OnlyLiterals | pkg/ofx/amount.go:15-92 | No other text parses to an amount (the path of more than two decimals aside) |
| Amount.ExactIff | pkg/ofx/amount.go:15-92 | The amount comes out exactly if and only if its cents fit int64 |
| Amount.OverflowIff | pkg/ofx/amount.go:54-72 | The only ordinary amounts accepted with a wrong result have the largest whole part and 08 to 99 cents (09 to 99 when negative); larger whole parts are refused |
| Amount.SmallWholeWraps | pkg/ofx/amount.go:41-48 | A whole part with its own minus sign below -(MaxInt64/100)-1 is accepted with a wrong result |
| Amount.ExtraSigns | pkg/ofx/amount.go:21-72 | "--5" is 500 cents, "7.-5" is 695, "7.+5" is 705 and "7.-" is 700 |
| Amount.RoundTrip | pkg/ofx/amount.go:15-92 | Printing a number of cents as W.FF and parsing it gives it back if and only if it fits int64 |
| Sgml.IndexFoldAscii | pkg/ofx/parser.go:89-106 | The first case-insensitive ASCII occurrence, -1 exactly when there is none or the text looked for is empty |
| Sgml.FoldMeans | pkg/ofx/parser.go:108-113 | Two characters match exactly if they are equal or the two cases of one ASCII letter |
| Sgml.SplitHeaderAndBody | pkg/ofx/parser.go:74-84 | Header and body make up the input, the body starts at the first <OFX> in any case, and no tag is reported exactly when there is none |
| Sgml.BytesOf | pkg/ofx/parser.go:187-199 | A text has one to four bytes a character, and as many bytes as characters exactly if it is ASCII |
| Sgml.OtherLinesStay | pkg/ofx/parser.go:203-230 | A line that opens no tag, closes one, or ends with its tag is passed through unchanged |
| Sgml.Scanner.Scan | pkg/ofx/parser.go:187-199 | Hands out the lines in order without their line ends, and stops for good at the first line of 64 KiB |
| Sgml.SgmlToXml | pkg/ofx/parser.go:185-200 | The scanning loop writes exactly the processed, trimmed, non-blank lines that the scanner hands out |
| Sgml.RewritingKeepsDocument | pkg/ofx/parser.go:185-230 | A file that spells a forest of elements, one to a line, with any indentation and blank lines and leaves not closed, is rewritten to text that reads as exactly that forest with the same leaf values in order |
| Sgml.DocumentIsDetermined | pkg/ofx/parser.go:185-230 | A file with no leaf closed already spells one forest only, so the rewritten text loses nothing |
| Sgml.EventsDetermineForest | pkg/ofx/parser.go:202-230 | The tags and values of the rewritten text determine the tree |
| Sgml.BalancedIffUnclosed | pkg/ofx/parser.go:203-230 | The rewritten text is a balanced tag sequence if and only if no leaf line was closed already |
| Sgml.LongLineTruncates | pkg/ofx/parser.go:187-199 | From the first line of 64 KiB on everything is dropped |
| Like.SearchIsContains | internal/infrastructure/db/postgres/repository/helpers.go:7-10 | For every text and name the pattern "%" + escaped text + "%" matches exactly when the text occurs in the name, under any case folding that leaves the three pattern characters alone |
| Like.EscapedIsLiteral | internal/infrastructure/db/postgres/repository/helpers.go:7-10 | An escaped text in front of "%" matches exactly the names that start with it |
| Like.UnescapedIsWildcard | internal/infrastructure/db/postgres/repository/account.go:143-146 | Without escaping a search for "_" would match every non-empty name; with it, those that contain an underscore |

## Left out

- Amount.ParseAmount: does not model the result for more than two decimals, which the service computes in float64 and rounds; the model only says that this path is taken.
- Sgml.RewritingKeepsDocument: does not model encoding/xml; the reader of the result is a reader of tags and texts without attributes and entities, strict about nesting, while the service decodes rewritten SGML leniently.
- Sgml.SplitHeaderAndBody: does not model parseHeader and the version test behind it.
- Sgml.IndexFoldAscii: does not model invalid UTF-8; text is a sequence of code points, and bytes are counted only for the line limit.
- Pagination.CursorRoundTrip: does not model base64 and time formatting; they are any encoders that decode what they encode, the time text without "|".
- Pagination.CompletedWalkShowsAll: does not model category and tag filters, whose matches may change between pages; the fixed-ledger results cover them.
- UseCases.ResolveTagsExact: takes identifiers in their canonical spelling; ResolveSpelledExact is the statement for others.
- Idempotency.RedisStore.Lock: does not model negative times to live, of which one asks Redis to keep the old one.
- PermissionCache.StalenessBound: does not model negative times to live, singleflight, or the user id in another UUID spelling, which makes another cache key.
- PermissionCache.Service.Apply: does not model users and permissions as rows of their own; an association row exists or not, and roles carry their permissions.
- RateLimit.AuthAccepts: is about requests handled one at a time; OverlappingAccepts bounds the others. Both are about one lifetime of one key.
- Idempotency.SuccessBound: does not model the header and body checks in front of Lock; every request here carries the key and a body that could be read.
- Services.StatementEntity.WithTags: does not model tag names and their order; the tags of a statement are a set of ids.
- Services.MapOfxTransaction: takes the description as given; joining NAME and MEMO is not part of the model.
- RateLimit.KeysTellApart: is about addresses without a slash, methods without slash and colon, and a key for unmatched routes without either.
- Idempotency.RetryIsReplayed: is about requests with a body fingerprint, which every modelled request has.
- Services.CreateUseCase.Execute: does not model malformed identifiers and times, which are refused before anything is written.
- Repositories.CategoryRepository.Update: does not model the unique names of categories and tags.
- Repositories.AccountRepository.Update: does not model description and credit limit, and takes the active flag as given, so an update built from an older read may revive an account.
- Guarantees.AtMostTenTags: does not hold when a replacement misses rows, as OverlappingReplacementsUnite and CommonTagSurvives show.
- The middleware closures of idempotency and permission loading are state machines over their Redis calls, not methods: their meaning lies in the interleaving.
- Concurrency inside PostgreSQL is a row lock, unique-index waiting and foreign-key waiting at the granularity of one SQL statement; deadlock detection is a rollback that can happen at any time.
- Listing of accounts, categories, tags, users and roles: the same keyset code, or an order without a tie-break, or a type filter whose SQL clause means something else.
- The user cache: the shape of the permission cache with another key.
- HTTP handlers, routing, telemetry, logging, JWT, password hashing, service keys, configuration loading, date parsing and PII masking.
