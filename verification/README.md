# Antimoney: a verified model of the ledger and its bank feed

Antimoney keeps double-entry books and fills them from a bank feed (Plaid). This project models, in Dafny,
the parts of it whose correctness is not visible in any one function: a staging table that is written one
statement at a time and replayed after failures, imports that race each other, access tokens that are re-sealed
while users re-link, a ledger that adds rationals in 64 bits, a register that is cut into pages and stitched
together again, a restore that renames every id, rolling snapshot quotas, and three smaller refinements.
`dafny verify dfyconfig.toml` checks everything.

## How it is organised

| file | what it models |
|---|---|
| `numeric.dfy`, `exactness.dfy`, `rounding.dfy` | rationals over two int64 fields; sums, the four operations, conversion with five rounding modes |
| `ledger.dfy`, `posting_effects.dfy`, `posting_runs.dfy`, `transaction_service.dfy`, `trial_balance.dfy` | posting, updating and deleting transactions: what is written and what is refused; the zero-sum invariant over every run, imports and restores included |
| `staging.dfy`, `convergence.dfy`, `page_order.dfy` | the staging table, what one page's statements do to it, replays and reorderings |
| `importing.dfy`, `timeline.dfy` | the suggestion filter against Import, dismissals, pending and posted copies of one movement |
| `delivery.dfy`, `delivery_alone.dfy`, `dismissal.dfy`, `import_race.dfy`, `pending_race.dfy`, `tokens.dfy` | concurrent protocols, one SQL statement per step; what they come to when nothing interleaves |
| `plaid_service.dfy` | the service as an object, its loops proved against the functions of the modules above |
| `register.dfy`, `register_balance.dfy`, `reconcile.dfy`, `account_tree.dfy` | register and paging with the client that merges pages, and its last balance against the books; the reconcile wizard; the chart of accounts |
| `restore.dfy`, `snapshots.dfy`, `categorizer.dfy` | restoring a book, snapshot quotas and scheduler, category suggestions |

SQL tables are maps. A SQL statement, or an explicit database transaction, is one atomic step; unique indexes and
foreign keys are guards on it. Where the source runs a loop or updates an object, the model has a method with that
loop, whose contract ties it to a function; the properties are proved about that function.

Assumed of the bank, and stated as `FeedOk` in `convergence.dfy`: a posted id names one fixed pending predecessor,
no two posted ids name the same one, a pending id has no predecessor of its own, an id keeps its bank account.
Sealing is ideal (`tokens.dfy`): a ciphertext opens with its own key and associated data and with nothing else, which
is what AES-GCM of NIST SP 800-38D is used for here. Ids drawn at random are fresh, and no request names an account whose id is still to be drawn. A snapshot's quota check and its
insert are one step, and the clock never goes back. The database's free choices (which row `LIMIT 1` returns, the order
of rows not fixed by `ORDER BY`) are parameters of the functions, so what is proved holds for every choice.

## What turned out not to hold as one might expect

Each of these has a concrete history or input in the project, next to the exact condition under which the property holds.

- **Replays converge only from the right cursors.** The cursor is read before the lock is taken. A run that starts behind
  the stored cursor and then fails can leave a row the feed had already settled; one that starts ahead of it and succeeds
  skips what lies between. Over all feeds, tables and failure points a run keeps the table on course if and only if it
  starts at or before the stored cursor when it persists, and at or after it when it fails
  (`Convergence.ConvergesIffSafe`; whole histories in `StaleRetryLeavesAPhantom` and `StaleReaderSkipsARemoval`).
  Before a run it is not known which it will be: it is safe however it ends exactly when it starts from the stored cursor
  (`AnyEndConvergesIffCurrent`).
- **A correction can be deleted unread.** An import that finds a row to be the pending one's copy deletes by id, whatever a
  sync has put there since (`Delivery.CorrectionIsLost`). Everything delivered is accounted for at every moment if and only if
  no import deletes a row that changed since it was matched (`Delivery.NothingIsLostIff`).
- **A dismissal can miss the posted successor.** Taking each staged entry as one step, dismissal is permanent
  (`Timeline.DismissalIsPermanent`). Statement by statement it is permanent if and only if nothing in flight has already read
  the row's flag as unset, or its match, or is about to delete it (`Dismissal.DismissalIsPermanentIff`).
- **The defence against double posting has a direction, and a gap.** Of imports that do not overlap, the pending row first
  posts once; the posted row first and the pending one afterwards posts twice (`Timeline.PendingFirstPostsOnce`,
  `PostedFirstPostsTwice`). The check of the pending copy and the insert are separate statements: a request for the posted
  row that has made its check before the pending one is inserted still inserts its own (`PendingRace.OverlapPostsTwice`;
  the comment at `backend/internal/plaid/service.go:923-927` suggests otherwise). Once the amount is in the books, no
  schedule posts a copy of it if and only if no request waits at such an insert that is not refused
  (`PendingRace.PostedOnceIff`).
- **One amount cannot be imported faithfully**, -2^63, whose int64 negation is itself (`Importing.ImportIsFaithfulIff`):
  both accounts lose it, and Imbalance gets twice the amount back (`MinAmountTakesFromBoth`).
- **Posted transactions need not sum to zero**, for totals beyond 64 bits. Four splits of 2^62 units pass the zero check
  (`Ledger.WrappedSumIsPosted`); three of 2^63 - 1 hundredths get a wrong balancing split (`WrongBalanceIsPosted`). A created
  transaction is balanced if and only if the negated total fits int64, and an updated one if and only if the total does: on
  whole units without any other condition (`CreateOfWholeUnitsIsBalancedIff`, `UpdateOfWholeUnitsIsBalancedIff`), on other
  denominators, in lowest terms, as long as the totals before the last split fit (`CreateIsBalancedIff`,
  `UpdateIsBalancedIff`). Whatever fits or not, in units of 1/d the posted total is a multiple of 2^64
  (`CreateIsOffByWraps`, `UpdateIsOffByWraps`).
- **The reconcile wizard reads the columns of PAYABLE and ROOT accounts with the wrong sign**, and so it does every
  credit-normal account when it is opened from the tree of accounts, which passes a whole subtree and no type. For a list of
  accounts it is right if and only if it is right for each of their types (`Reconcile.WizardIsRightIff`, `KindsThatAgree`;
  `frontend/src/pages/Accounts.tsx:185-192`).
- **A plain disconnect is not version-guarded**: it deletes the token it opened if and only if the last re-link between its
  read and its delete, if any, stored the same one (`Tokens.PlainDisconnectDeletesIff`; a history in
  `UnguardedDisconnectDropsARelink`).
- **Accounts above themselves are not shown.** The tree shows every account exactly once if and only if there are none
  (`AccountTree.ShowsAllIffAcyclic`; the smallest such list in `OwnParentIsNotShown`).
- **A restore forgets Plaid ids and bank links**, which exports do not carry (`Restore.RestoreForgetsPlaid`).
- **Only an hourly schedule can meet the scheduled quota** (`Snapshots.OnlyHourlyMeetsTheQuota`); the comment at
  `backend/internal/services/snapshot_service.go:22` suggests that it would not.

## Model

| member | source | states |
|---|---|---|
| Convergence.ConvergesIffSafe | backend/internal/plaid/service.go:589-637 | Over all feeds, tables, books and failure points, a run from one cursor that finds another keeps the table on course to the in-order result if and only if it starts at or before the stored cursor when it persists and at or after it when it fails. |
| Convergence.AnyEndConvergesIffCurrent | backend/internal/plaid/service.go:362-412 | However a run ends, it keeps the table on course if and only if it starts from the stored cursor. |
| Convergence.ReplaysConverge | backend/internal/plaid/service.go:589-637 | Any sequence of such runs - failures after any statement, retries, three-page cap - leaves, once the cursor is at the end of the feed, exactly the table of one in-order pass. |
| Convergence.SafeRunKeepsConverging | backend/internal/plaid/service.go:354-412 | One run, stopped after any number of statements, keeps what is staged plus what is still ahead of the cursor equal to the in-order table. |
| Convergence.Absorb | backend/internal/plaid/service.go:643-787 | Statements replayed ahead of a list that contains them leave no trace, whatever the table was. |
| Convergence.Restart | backend/internal/plaid/service.go:643-787 | Starting over from an older cursor ends where going on would have ended. |
| Convergence.FailingBehindDiverges | backend/internal/plaid/service.go:718-746 | For every pair of cursors with the start behind, a feed, a table and a failure point exist from which the run leaves a phantom row for good. |
| Convergence.PersistingAheadDiverges | backend/internal/plaid/service.go:612-623 | For every pair of cursors with the start ahead, a feed exists of which the run skips an entry for good. |
| Convergence.StaleRetryLeavesAPhantom | backend/internal/plaid/service.go:362-412 | A history of two runs from once-stored cursors that ends with a row no in-order pass stages. |
| Convergence.StaleReaderSkipsARemoval | backend/internal/plaid/service.go:362-412 | A history of four completed runs from once-stored cursors that ends with a row the bank removed. |
| Delivery.NothingIsLostIff | backend/internal/plaid/service.go:602-622 | Over every interleaving of sync runs, imports, dismissals and edits, one statement at a time: each non-zero entry on a page before the stored cursor has been delivered, and what was last delivered under each id is at every moment staged as delivered - predecessor, bank account, date, description, amount and pending flag - or has been in the books, or was dropped for a reason of its own id and amount, if and only if no import deletes a row that changed since it was matched. |
| Delivery.NothingIsLost | backend/internal/plaid/service.go:659-684 | The same for one id and the final state of a history without such a deletion: a drop as a copy of the pending entry needs a moment at which the books carried that entry's predecessor, account and amount. |
| Delivery.StepKeepsIff | backend/internal/plaid/service.go:938-939 | One statement keeps everything delivered accounted for if and only if it is not such a deletion. |
| Delivery.CorrectionIsLost | backend/internal/plaid/service.go:994-996 | A history in which a correction is delivered, then deleted by an import that had matched the old amount, and ends neither staged nor in the books. |
| Delivery.StepKeepsInv | backend/internal/plaid/service.go:643-787 | Every single statement, and every stop, keeps the invariant behind that. |
| Delivery.FinishedRunDelivered | backend/internal/plaid/service.go:612-623 | A run that reaches its cursor write has delivered every non-zero entry of every page it read. |
| DeliveryAlone.RunAloneIsStep | backend/internal/plaid/service.go:589-637 | With nothing in between, the statements of a run take table and cursor exactly where one run of the convergence model takes them. |
| DeliveryAlone.ImportAloneIsImportRow | backend/internal/plaid/service.go:928-996 | Likewise the read, insert or match, and clean-up of one import end in the books and the table of the one-step import. |
| Staging.StagedRowIs | backend/internal/plaid/service.go:659-714 | On every table: unless the books carry its movement under its predecessor already, when both copies go, a non-zero entry leaves a row with its own predecessor, date, description, amount and pending flag, the bank account of an earlier row of that id, and the flag set if that row or the predecessor's had it set; no other row changes. |
| Staging.SettledRowsGo | backend/internal/plaid/service.go:718-787 | A $0 settlement or a removal takes exactly the undismissed rows among its ids, and changes no other. |
| PageOrder.OrderDoesNotMatter | backend/internal/plaid/service.go:644-746 | Any permutation of a page's added and modified entries leaves every row that could be suggested exactly the same, dismissal flag included. |
| PageOrder.SettlementWins | backend/internal/plaid/service.go:649-657 | A $0 settlement removes its undismissed pending entry, in whatever order the two stand in the page. |
| PageOrder.FirstPass | backend/internal/plaid/service.go:653-716 | What the first pass leaves at an id is, field by field, what that id's own entry says, with the dismissals from before the page. |
| Importing.SuggestionImports | backend/internal/plaid/service.go:460-513 | Every row Sync shows imports: one transaction with exactly -a/d on the item's linked account and +a/d on the category, nothing else changed, and no later Sync can show the id while that transaction stays, whatever is staged meanwhile. |
| Importing.ImportIsFaithfulIff | backend/internal/plaid/service.go:946-971 | Importing a staged row posts exactly the two opposite splits if and only if the amount is not -2^63. |
| Importing.MinAmountTakesFromBoth | backend/internal/plaid/service.go:953-970 | In hundredths, as the feed delivers amounts, that one is posted with the same sign on both accounts, and a third split gives twice the amount to Imbalance. |
| Importing.OnlyTheSameValueMatches | backend/internal/plaid/service.go:803-823 | With a category other than the bank account, an import matches a posted successor if and only if numerator and denominator are the imported ones; a reversal never does. |
| Importing.SuggestedIff | backend/internal/plaid/service.go:460-482 | A row is suggested if and only if it is staged and undismissed, its bank account is one this item links, no transaction of the book carries its id, and none carries its predecessor's with this amount on that account. |
| Importing.PendingFlagShowsPending | backend/internal/plaid/service.go:463-465 | With pending imports off, exactly the rows that are not pending remain of those. |
| Importing.OutcomeMeans | backend/internal/plaid/service.go:903-991 | Posted: the id is new in the books and gone from staging; skipped: the books stay and hold the id, or the very movement under its pending one; failed: nothing changes. An id known to the books never fails on a linked account. |
| Timeline.DismissalIsPermanent | backend/internal/plaid/service.go:685-716 | After a dismissal no history of pages, dismissals, imports and edits makes the id a suggestion again, nor a successor first staged later that names it, as long as neither it nor its predecessor is imported. |
| Timeline.DismissBuries | backend/internal/plaid/service.go:825-838 | Dismissing a staged row establishes the condition under which that holds. |
| Timeline.DismissalTouchesOnly | backend/internal/plaid/service.go:829-833 | The rows named get the flag and keep every other field; all other rows stay as they are, and none comes or goes. |
| Timeline.DismissalHidesOnly | backend/internal/plaid/service.go:829-833 | Afterwards exactly the rows are suggested that were before and are not named. |
| Timeline.DismissalRacesStaging | backend/internal/plaid/service.go:687-714 | Between the read of the predecessor's flag and the insert, the successor ends up suggested if and only if the flag read is no longer current. |
| Dismissal.DismissalIsPermanentIff | backend/internal/plaid/service.go:685-716 | Statement by statement, over every interleaving in which neither the id nor its predecessor enters the books, a dismissed row stays staged with its flag set and every successor staged later has it set too, if and only if at the dismissal no run has already read its flag as unset, or its match, and no import is about to delete its row. |
| Timeline.NoDoublePosting | backend/internal/plaid/service.go:659-684 | Imports taken one row at a time: once a transaction imported under the predecessor carries the amount on the linked account, no later page, dismissal, import, or edit that leaves that split and its link alone, lets any step post the successor with that amount. |
| PendingRace.PostedOnceIff | backend/internal/plaid/service.go:928-971 | Statement by statement: once that amount is carried, no schedule of running and new requests, whatever syncs and dismissals do to staging, inserts a copy of it, if and only if no request already waits at the insert of one that is not refused. With edits in between that leave the carrying split alone the same holds, but then every waiting insert counts unless its row names itself as its predecessor. |
| PendingRace.SafeNeverPosts | backend/internal/plaid/service.go:928-944 | The half that keeps: from such a state no event of any history, edits included or not, posts a copy. |
| PendingRace.OverlapPostsTwice | backend/internal/plaid/service.go:928-971 | From any state with both copies staged, a history of two requests in which the pending row is inserted first and the posted one nevertheless. |
| Timeline.ImportedPendingCarries | backend/internal/plaid/service.go:946-971 | Importing the pending row leaves such a transaction. |
| Timeline.PendingFirstPostsOnce | backend/internal/plaid/service.go:928-941 | With both copies staged and imports that do not overlap, importing the pending one first leaves one transaction. |
| Timeline.PostedFirstPostsTwice | backend/internal/plaid/service.go:928-941 | Importing the posted one first leaves two, with the same splits. |
| ImportRace.ExactlyOnce | backend/internal/plaid/service.go:863-991 | For any number of import requests interleaved statement by statement, over staging that may hold other rows and rows imported before: none is reported failed, no id is in the books twice, nothing but requested rows is posted; at the end each requested row is exactly one transaction, with its two splits if it was not in the books before, and the counts add up to the number of those rows. |
| ImportRace.ScheduleKeepsInv | backend/internal/plaid/service.go:1002-1007 | Every schedule keeps the invariant behind that, and has no more steps than the work the requests began with. |
| ImportRace.NeverStuck | backend/internal/plaid/service.go:903-913 | A request that is not through can always take its next step. |
| ImportRace.AloneIsImportRow | backend/internal/plaid/service.go:863-991 | A request that runs alone does with each row what the one-step import does, and counts it or lists it as failed accordingly. |
| Importing.ImportCollides | backend/migrations/000009_plaid_txn_unique.up.sql:31-33 | An import of an id already in the books is turned down by the unique index, and by nothing else. |
| Tokens.VersionNamesOneCiphertext | backend/internal/plaid/service.go:137-155 | At any two moments of any interleaving of exchanges, syncs, re-seals and disconnects, a row found with the same guid and version holds the same ciphertext, for the same owner. |
| Tokens.ResealWritesWhatWasRead | backend/internal/plaid/service.go:137-155 | A re-seal writes nothing, or replaces the very ciphertext it read by the same token under the primary key and the row's owner; a token stored by a re-link in between stays. |
| Tokens.ForcedDisconnectArchives | backend/internal/plaid/service.go:1061-1102 | A forced disconnect deletes only the version it read, whose token none of its keys opens in either format, and archives that row. |
| Tokens.LegacyTokenIsNotDeleted | backend/internal/plaid/service.go:1029-1037 | A legacy token that a server's keys open survives every disconnect of that server while its flag is off, even if the row was read earlier. |
| Tokens.LegacyTokenIsNotUsed | backend/internal/plaid/service.go:113-126 | With the flag off a legacy token is neither handed out nor changed; if the server's keys open it, the request ends. |
| Tokens.PlainDisconnectDeletesIff | backend/internal/plaid/service.go:1103-1107 | Whatever runs between its read and its delete, a plain disconnect deletes, unarchived, the token of the last re-link in between; it deletes the token it opened if and only if that re-link, if any, stored the same one. |
| Tokens.RowHoldsLastToken | backend/internal/plaid/service.go:137-155 | Through any interleaving, a row still there holds the token of its last re-link, or the one it held. |
| Tokens.UnguardedDisconnectDropsARelink | backend/internal/plaid/service.go:1103-1107 | A history in which they differ. |
| Tokens.DecryptToken | backend/internal/plaid/service.go:104-128 | The two loops over the keys: the bound format wins over the legacy one, a token is stale unless it opened with the first key, and a legacy token yields its error exactly when some key opens it and the flag is off. |
| Tokens.DecryptMeans | backend/internal/plaid/service.go:104-128 | The same by what each key opens, bound or not, with no word on the sealing key. |
| Tokens.UnsealingFreshens | backend/internal/plaid/service.go:137-155 | After a decryption, if the row is still the version read, it opens to the same token under the first key, bound to its owner, and is not stale. |
| Tokens.FreshIsLeftAlone | backend/internal/plaid/service.go:137-155 | A token under the first key and bound to its owner is not rewritten, nor one that no key opens. |
| Tokens.ExchangeStores | backend/internal/plaid/service.go:195-209 | Linking stores the new token: on the row of the same owner if there is one, with its cursor kept and its version raised; every other row stays. |
| Tokens.ForcedDisconnectDeletesIff | backend/internal/plaid/service.go:1061-1102 | A forced disconnect deletes if and only if the row is still the version it read. |
| PlaidService.PlaidService.StageDelta | backend/internal/plaid/service.go:643-787 | The two passes and the removal execute the page's statements in order, up to the point where the database is lost, and report failure exactly then. |
| PlaidService.PlaidService.FetchAndStage | backend/internal/plaid/service.go:589-637 | Up to three pages and the cursor write do what one run of the convergence model does, wherever bank or database fail; success means that the cursor was written, and hasMore that pages remain. |
| PlaidService.PlaidService.Suggest | backend/internal/plaid/service.go:424-548 | The answer holds exactly the suggested rows, each with the row's own date, description and amount and the account the item links to its bank account, by date and id. |
| PlaidService.QueryHasOneAnswer | backend/internal/plaid/service.go:460-482 | The order of the query leaves it exactly one answer, whatever is staged. |
| PlaidService.ImportPostsWhatIsShown | backend/internal/plaid/service.go:538-548 | Importing a suggestion posts, on the date and with the text shown, minus the amount shown on the account shown and plus it on the category. |
| PlaidService.PlaidService.DismissStaged | backend/internal/plaid/service.go:825-838 | The rows named get the flag, their number is returned, and no other row or field changes. |
| PlaidService.PlaidService.Import | backend/internal/plaid/service.go:863-991 | Row by row the loop does what importing one row does, and its count and failed list are those of the outcomes. |
| PlaidService.CountIsPosted | backend/internal/plaid/service.go:863-991 | The count is the number of rows posted. |
| PlaidService.FailedAre | backend/internal/plaid/service.go:863-991 | The failed list holds exactly the ids of rows that failed. |
| PlaidService.PlaidService.LinkAccounts | backend/internal/plaid/service.go:231-327 | All mappings and the flag are stored, or nothing is and the first failing check is reported. |
| PlaidService.LinkingIsOneToOne | backend/internal/plaid/service.go:250-316 | Linking keeps one account per bank account, replaces no link by another, changes nothing but links, and leaves every mapping asked for in place. |
| PlaidService.LinkSucceedsIff | backend/internal/plaid/service.go:250-316 | A mapping is accepted if and only if its account is of the book, has no link or this very one, and no other account of the book has that bank account. |
| PlaidService.LinkErrorIs | backend/internal/plaid/service.go:250-316 | Which of the three errors is returned where it is not. |
| PlaidService.LinkingAgainIsIdle | backend/internal/plaid/service.go:250-316 | Asking for the same mappings again succeeds and changes nothing. |
| Numeric.SumIsExact | backend/internal/gnc/numeric.go:278-291 | When every running total, in lowest terms, fits, the int64 sum is the exact rational sum and the zero test is right. |
| Numeric.GcdLoop | backend/internal/gnc/numeric.go:264-269 | Euclid's loop returns the greatest common divisor. |
| Numeric.LowestTermsAreSmallest | backend/internal/gnc/numeric.go:253-262 | Lowest terms are no larger than any other way to write the fraction. |
| Numeric.AddIsExact | backend/internal/gnc/numeric.go:110-114 | One addition lands exactly on the sum, in lowest terms, whenever these fit, however large the operands' common denominator is. |
| Exactness.FromRatIsExactIff | backend/internal/gnc/numeric.go:253-262 | Cutting a rational back to two int64 fields gives the same number with a positive denominator if and only if its lowest terms fit. |
| Exactness.SumsAreExactIff | backend/internal/gnc/numeric.go:110-120 | Add and Sub are exact if and only if the true result's lowest terms fit int64. |
| Exactness.SumsAreTrueIff | backend/internal/gnc/numeric.go:278-285 | The running sum is the exact total after each value if and only if each of these totals, in lowest terms, fits. |
| Exactness.SumIsCongruent | backend/internal/gnc/numeric.go:278-285 | In any common unit 1/d with d an int64, without a bound on the totals, the sum is formed and is the true total modulo 2^64 units. |
| Exactness.ProductIsExactIff | backend/internal/gnc/numeric.go:122-126 | The same for Mul. |
| Exactness.QuotientIsExactIff | backend/internal/gnc/numeric.go:128-135 | The same for Div, which fails exactly for a divisor of value zero. |
| Rounding.Convert | backend/internal/gnc/numeric.go:140-187 | The result is the one integer the mode allows for the scaled value, cut to 64 bits; it fails exactly for a non-positive target, or a remainder under RoundNever. |
| Rounding.BankerRound | backend/internal/gnc/numeric.go:189-218 | The adjusted quotient is nearest to the value, and even on a tie. |
| Rounding.NeverMeansAllAgree | backend/internal/gnc/numeric.go:155-187 | RoundNever succeeds exactly when floor, ceiling, truncation and banker rounding agree. |
| Rounding.RoundsIsMonotone | backend/internal/gnc/numeric.go:155-187 | Every mode keeps order. |
| Rounding.RoundsNegated | backend/internal/gnc/numeric.go:155-218 | Banker rounding and truncation commute with negation; floor of the negative is minus the ceiling. |
| Rounding.ConvertingAgainKeeps | backend/internal/gnc/numeric.go:140-187 | Converting a converted value again, to the same denominator and in whatever mode, succeeds and returns it, also where the first conversion was cut to 64 bits. |
| Rounding.RoundingError | backend/internal/gnc/numeric.go:189-218 | The banker error is at most half a unit, any other below one. |
| PostingRuns.ReachableIsValid | backend/internal/services/transaction_service.go:64-224 | After any run of creates, updates, deletes, Plaid imports and restores, every transaction has at least two splits, none zero, summing to zero exactly, each on an account of the transaction's own book; parents and roots are within their books, and every book can be restored. Creates and updates are within the bound, restored payloads closed and balanced, imports of whatever is staged. |
| Ledger.SmallIsSummable | backend/internal/services/transaction_service.go:69-94 | The bound a caller can check: the number of splits times the largest of them, in a common unit, fits int64. |
| Importing.ImportIsSummable | backend/internal/plaid/service.go:946-971 | Every amount the feed stages, -2^63 hundredths included, makes an import request within the bound. |
| Ledger.CreateKeepsValid | backend/internal/services/transaction_service.go:64-224 | A create adds exactly one balanced transaction and leaves all others and all existing accounts as they were. |
| Ledger.UpdateKeepsValid | backend/internal/services/transaction_service.go:236-345 | An update keeps balance, Plaid id and all other transactions, and leaves every split unreconciled. |
| Ledger.DeleteKeepsValid | backend/internal/services/transaction_service.go:458-471 | A delete removes that transaction only. |
| PostingEffects.CreateWrites | backend/internal/services/transaction_service.go:64-224 | A created transaction has the request's book, Plaid id, date and text, and the request's non-zero splits, followed, if these do not sum to zero, by one unreconciled split of the negated sum on the Imbalance account. |
| PostingEffects.CreateUsesUsableAccounts | backend/internal/services/transaction_service.go:138-154 | Every split a create writes, the balancing one included, is on an account of the book that is no placeholder. |
| PostingEffects.UpdateUsesUsableAccounts | backend/internal/services/transaction_service.go:281-297 | The same for an update. |
| PostingEffects.CreateRefusesPlaceholders | backend/internal/services/transaction_service.go:151-153 | A request that is acceptable but for a split on a placeholder account is refused with that error. |
| PostingEffects.UpdateRefusesPlaceholders | backend/internal/services/transaction_service.go:294-296 | The same for an update. |
| PostingEffects.ForeignAccountIsTheError | backend/internal/services/transaction_service.go:138-150 | Accounts that are missing or of another book are refused as not found. |
| PostingEffects.CreateErrors | backend/internal/services/transaction_service.go:64-92 | Only zero splits: too few; a split that counts with a zero denominator: invalid. |
| PostingEffects.UpdateErrors | backend/internal/services/transaction_service.go:236-284 | Which error an update is refused with: the transaction, a split, the sum, the number of splits, in this order. |
| PostingEffects.DeletableIff | backend/internal/services/transaction_service.go:458-471 | A delete succeeds if and only if the transaction is of the book, and removes only it. |
| PostingEffects.BooksAreSeparate | backend/internal/services/transaction_service.go:64-345 | Whatever is posted, updated or deleted in one book, accounts and transactions of all others stay as they were. |
| PostingEffects.ImbalanceIsMadeOnce | backend/internal/services/transaction_service.go:96-119 | A book without an Imbalance account gets one, under its root and open for posting, and every later balancing finds it. |
| PostingEffects.BalancingNeedsARoot | backend/internal/services/transaction_service.go:103-108 | A book without a root account cannot be balanced. |
| Ledger.BalanceIsExact | backend/internal/services/transaction_service.go:93-132 | If the running totals and the negated total fit, auto-balancing makes the splits sum to zero exactly and adds a split only when they did not. |
| Ledger.BalanceIsExactIff | backend/internal/services/transaction_service.go:93-132 | If the totals before the last split fit, what auto-balancing returns sums to zero if and only if the negated total, in lowest terms, fits. |
| Ledger.CreateIsBalancedIff | backend/internal/services/transaction_service.go:82-132 | In any common unit in which the earlier totals fit, a created transaction sums to zero if and only if the negated total of its non-zero splits, in lowest terms, fits. |
| Ledger.CreateIsOffByWraps | backend/internal/services/transaction_service.go:82-132 | In any common unit 1/d, however large the totals, a created transaction's total is a multiple of 2^64/d. |
| Ledger.CreateOfWholeUnitsIsBalancedIff | backend/internal/services/transaction_service.go:82-132 | On whole units, whatever the totals on the way, a created transaction sums to zero if and only if the negated total fits int64. |
| Ledger.UpdateIsBalancedIff | backend/internal/services/transaction_service.go:263-267 | An update that is accepted sums to zero if and only if its total, in lowest terms, fits. |
| Ledger.UpdateIsOffByWraps | backend/internal/services/transaction_service.go:263-267 | The same multiple for an accepted update, whatever fits. |
| Ledger.UpdateOfWholeUnitsIsBalancedIff | backend/internal/services/transaction_service.go:263-267 | The same on whole units, whatever the totals on the way. |
| Ledger.WrongBalanceIsPosted | backend/internal/services/transaction_service.go:120-132 | In hundredths, three splits of 2^63 - 1 get a fourth that does not balance them, and are posted. |
| Ledger.WholeUnitsZeroTest | backend/internal/gnc/numeric.go:287-291 | On whole units the zero test accepts exactly the totals that are multiples of 2^64. |
| Ledger.WrappedSumIsPosted | backend/internal/services/transaction_service.go:82-94 | Four splits of 2^62 are posted although they do not sum to zero. |
| TrialBalance.TrialBalanceIsZero | backend/internal/services/transaction_service.go:82-132 | In valid books the balances of a book's accounts add up to zero. |
| TransactionService.TransactionService.CreateTransaction | backend/internal/services/transaction_service.go:64-224 | The loops and checks, in the source's order, do to the tables what the posting function says, and nothing on an error. |
| TransactionService.TransactionService.UpdateTransaction | backend/internal/services/transaction_service.go:236-345 | The same for updates. |
| TransactionService.TransactionService.BatchReconcileSplits | backend/internal/services/transaction_service.go:921-949 | Split by split, the batch marks what the specification marks, in one transaction. |
| Register.GetAccountRegister | backend/internal/services/transaction_service.go:503-536 | Each entry carries the running sum of all rows up to it; the call panics exactly when one of those sums cannot be formed. |
| Register.GetAccountRegisterPaged | backend/internal/services/transaction_service.go:575-805 | Whenever the full register can be computed, a page is its slice at the page's offsets, balances included, with the right flags and offsets. |
| Register.BalancesAreExact | backend/internal/services/transaction_service.go:525-526 | While every running total, in lowest terms, fits, each balance shown is the exact sum of the amounts so far. |
| Register.BookFilterIsIdle | backend/internal/services/transaction_service.go:490-497 | In valid books the book condition that only the paged query has excludes nothing. |
| Register.AroundShowsTheDate | backend/internal/services/transaction_service.go:653-676 | The page around a date begins at or before the first entry on or after it, and reaches it. |
| Register.PageShows | backend/internal/services/transaction_service.go:676-805 | A page holds the entries from its offset on, as many as asked for and there are, and its flags say whether there are entries on either side. |
| Register.DayPages | backend/internal/services/transaction_service.go:618-652 | With a day as cursor, the page before ends with the last entry before the day and the page after begins with the first entry after it. |
| Register.OffsetPages | backend/internal/services/transaction_service.go:618-652 | With an offset, the page before ends right before it, the page after begins right after it. |
| Register.EntryShowsRow | backend/internal/services/transaction_service.go:503-536 | An entry has its split's date, text and mark, and the size of its amount in the one column that sign and account type ask for. |
| Register.RowShowsSplit | backend/internal/services/transaction_service.go:473-501 | Each row of the register is a split on the account, with its transaction's date and text. |
| RegisterBalance.RegisterAddsUp | backend/internal/services/transaction_service.go:503-536 | The rows of an account's register add up to the account's balance over all transactions. |
| RegisterBalance.LastBalanceIsAccountBalance | backend/internal/services/transaction_service.go:525-526 | So the last balance shown is the account's balance, while the totals fit. |
| Register.AccountRegister.LoadInitialData | frontend/src/pages/AccountRegister.tsx:77-95 | The view shows exactly a window of the register, each entry once, with flags and offsets to match. |
| Register.AccountRegister.LoadMore | frontend/src/pages/AccountRegister.tsx:98-143 | One more page extends the window by exactly the adjacent rows; removing duplicates by split id drops nothing and adds nothing twice. |
| Register.ScrollingCoversEverything | frontend/src/pages/AccountRegister.tsx:98-143 | In whatever order pages are asked for, every load widens the window, so loading ends, and when neither side has more the window is the whole register. |
| Register.AccountRegister.ScrollThrough | frontend/src/components/Register.tsx:57-73 | Loading until neither side has more, in any order, ends with exactly the entries of the register, each once. |
| Reconcile.TotalsAgree | frontend/src/components/ReconcileWizard.tsx:119-140 | For every list of accounts whose columns the wizard reads as the server does, every cutoff and selection: start + left - right is the balance reported after reconciling the selection. |
| Reconcile.WizardIsRightIff | frontend/src/components/ReconcileWizard.tsx:27-28 | For every list of account types: over all registers, cutoffs and selections of accounts of these types that holds if and only if for each of them the wizard's one credit-normal reading and the server's debit-normal test disagree. |
| Reconcile.KindsThatAgree | backend/internal/models/models.go:61-69 | Opened with the account's type that is every type but PAYABLE and ROOT; opened without one, exactly the debit-normal types. |
| Reconcile.WizardAgreesWithServer | frontend/src/components/ReconcileWizard.tsx:65-157 | Whatever was toggled since the entries were loaded, the wizard's balance is the one the server will report. |
| Reconcile.ReconcileWizard.StartReconcile | frontend/src/components/ReconcileWizard.tsx:65-97 | The lists hold exactly the open entries up to the cutoff, and the cleared ones start out selected. |
| Reconcile.MarkedRegister | backend/internal/services/transaction_service.go:933-946 | The update marks exactly the selected rows of the register as reconciled. |
| Reconcile.MarkingTouchesOnly | backend/internal/services/transaction_service.go:921-949 | Of any split of any book nothing changes but the mark, and that only for splits asked for in the book's own transactions. |
| Reconcile.EntryMoves | frontend/src/components/ReconcileWizard.tsx:116-131 | An entry is in exactly one column, and moves left - right by its quantity with the sign that agreement decides. |
| Restore.RestoreIsIsomorphic | backend/internal/handlers/import_export.go:78-222 | Restoring a closed payload with distinct ids succeeds and makes the book its image under one injective renaming to unused ids: same parents, placeholders, dates, splits and marks; the book's root is a root account of it; other books are untouched. |
| Restore.WrappedIsClosed | backend/internal/handlers/import_export.go:79-105 | A root is added exactly when there is none, and then it is the only one and everything hangs under it. |
| Restore.ContainedIsDeletable | backend/internal/handlers/import_export.go:43-74 | In valid books whose parents and roots stay within them no foreign key refuses a book's deletion. |
| Restore.RestoreKeepsContained | backend/internal/handlers/import_export.go:78-222 | A restore keeps parents and roots within their books. |
| Restore.LastIdWins | backend/internal/handlers/import_export.go:108-121 | Should a payload use an id twice, references go to the last account with it. |
| Restore.BalancesFollow | backend/internal/handlers/import_export.go:122-130 | Each account's balance afterwards is what the payload gives the account it came from. |
| Restore.RestoreKeepsBalances | backend/internal/services/snapshot_service.go:303-355 | Restoring a snapshot gives every account the balance it had. |
| Restore.RestoredAccountIs | backend/internal/services/snapshot_service.go:303-355 | Every account of the book comes back under its new id with its name, type and placeholder flag, unlinked, below the account it was below; one without a parent is below the new root exactly if the book had no root account. |
| Restore.RestoredTxnIs | backend/internal/services/snapshot_service.go:303-355 | Every transaction comes back with its date, text and splits, these in order, on the renamed accounts, with their values, quantities and marks. |
| Restore.RestoreKeepsValid | backend/internal/handlers/import_export.go:195-216 | A payload whose transactions balance is restored to valid books. |
| Restore.SnapshotRoundTrip | backend/internal/services/snapshot_service.go:303-355 | Restoring a book's own snapshot succeeds, and a snapshot taken afterwards is the old one renamed, with the root it lacked. |
| Restore.DanglingReferenceRollsBack | backend/internal/handlers/import_export.go:175-186 | A parent or split naming neither an account of the payload nor one of another book undoes everything. |
| Restore.RestoreForgetsPlaid | backend/internal/handlers/import_export.go:43-74 | Afterwards no transaction of the book carries a Plaid id and no account a link. |
| Restore.PerformImport | backend/internal/handlers/import_export.go:78-222 | The deletions, the two-pass insert of the accounts, the transactions and the splits, statement by statement, compute that result; it succeeds if and only if the database lasts for every statement and no foreign key refuses one, and otherwise every table is as it was. |
| Restore.UpdateParents | backend/internal/handlers/import_export.go:175-186 | The second pass fills in every parent, one statement each, and fails exactly when one does not exist or the database is lost before. |
| Snapshots.QuotasHoldInEveryWindow | backend/internal/services/snapshot_service.go:215-271 | Over every run of users, scheduler, purges and deletions, no 24-hour window, wherever it lies, holds more than 23 scheduled or 15 manual snapshots of a book. |
| Snapshots.RotationKeepsTheCount | backend/internal/services/snapshot_service.go:231-254 | At the cap a new active snapshot replaces an oldest active one: the number of active ones stays and nothing else goes. |
| Snapshots.SchedulerKeepsItsDistance | backend/internal/scheduler/snapshot_scheduler.go:68-107 | Every snapshot the scheduler took is at least five minutes after every snapshot of the book stored before it. |
| Snapshots.OnlyHourlyMeetsTheQuota | backend/internal/scheduler/snapshot_scheduler.go:91-106 | Of all frequencies a book may keep, exactly the hourly one can be turned down by the scheduled quota. |
| Snapshots.NeverBlocked | backend/internal/services/snapshot_service.go:217-229 | With a frequency of two hours or more no tick is ever turned down. |
| Snapshots.SnapshotService.TakeSnapshotForBook | backend/internal/services/snapshot_service.go:274-301 | Check, rotation and insert together do what the specification says, and fail exactly when the quota is exceeded. |
| Snapshots.SnapshotService.ProcessConfig | backend/internal/scheduler/snapshot_scheduler.go:68-107 | One configuration takes the snapshot that is due, if any, judged at the start of the tick. |
| Snapshots.SnapshotService.RunTick | backend/internal/scheduler/snapshot_scheduler.go:49-66 | A tick is a purge followed by every configuration in turn, each at a time of its own and each judged at the start of the tick. |
| Snapshots.PurgeKeepsExactly | backend/internal/services/snapshot_service.go:142-148 | A purge keeps, unchanged, exactly the snapshots of books that have no configuration or no TTL, and those no older than their book's TTL. |
| Snapshots.OnlyTheOldGo | backend/internal/services/snapshot_service.go:142-148 | Over any run, a snapshot that no purge finds too old goes only by its id or by rotation. |
| Snapshots.NoneTooOldIsLeft | backend/internal/scheduler/snapshot_scheduler.go:49-66 | After a tick no snapshot is left that was too old at its purge. |
| Snapshots.TakenIff | backend/internal/services/snapshot_service.go:215-271 | A snapshot is stored unless the day before holds 15 manual or 23 scheduled ones of the book; an active one always is, and with 12 already there the one rotated out is gone and no other. |
| Snapshots.DueIff | backend/internal/scheduler/snapshot_scheduler.go:68-107 | An active snapshot is due if and only if the book is in active mode, changed in the last five minutes and has none that young; a scheduled one if and only if that is not so and the book has none younger than its frequency. |
| Snapshots.CanAlwaysProcess | backend/internal/scheduler/snapshot_scheduler.go:68-107 | Whatever the configuration and the store, there is a way to process it at any later time. |
| Snapshots.DeleteRemovesOnly | backend/internal/services/snapshot_service.go:128-132 | A deletion by id removes that snapshot, if it is the book's, and no other. |
| Categorizer.SuggestBatch | backend/internal/plaid/categorizer.go:96-131 | Each description gets what Suggest gives it alone, also when either pass fails half way and the rest is done row by row. |
| Categorizer.SuggestionIsNewestMatch | backend/internal/plaid/categorizer.go:37-79 | A suggestion is the category of the newest transaction with that very description, or only if there is none, of the newest containing it literally; there is one if and only if some transaction does. |
| Categorizer.EscapedLikeIsContains | backend/internal/plaid/categorizer.go:57-66 | The escaped LIKE pattern matches exactly the texts that contain the query, whatever metacharacters it holds. |
| Categorizer.QueryRows | backend/internal/plaid/categorizer.go:83-90 | The join of patterns and history, ordered and cut to the first row of each pattern, holds for each pattern exactly the account the one-pattern query returns. |
| Categorizer.DistinctKeepsFirst | backend/internal/plaid/categorizer.go:83-90 | Keeping the first of adjacent rows with one index keeps, of an ordered list, exactly the row of least rank for each index. |
| Categorizer.RunBatch | backend/internal/plaid/categorizer.go:133-154 | The result rows overwrite exactly their own slots. |
| AccountTree.TreeConservesMoney | frontend/src/components/AccountTree.tsx:15-55 | Every account is placed exactly once, nothing else is, and the roots' aggregates add up to the sum over all accounts. |
| AccountTree.AggregateIsFlatSum | frontend/src/components/AccountTree.tsx:34-50 | A node's aggregate is the flat sum over the guids collected from it. |
| AccountTree.ShowsAllIffAcyclic | frontend/src/components/AccountTree.tsx:15-32 | For every list with distinct ids, every account is shown exactly once if and only if no account is above itself. |
| AccountTree.ShownOnceIffRooted | frontend/src/components/AccountTree.tsx:23-32 | Cycles or not, no account is shown twice, and those shown are those whose parents lead to a root. |
| AccountTree.PlacedOnce | frontend/src/components/AccountTree.tsx:23-32 | An account occurs once in what the tree shows. |
| AccountTree.AccountTree.BuildTree | frontend/src/components/AccountTree.tsx:15-55 | The pushes and the recursive writes leave each node with its children in list order and both aggregates of its subtree. |
| AccountTree.BuiltTreeConservesMoney | frontend/src/components/AccountTree.tsx:15-55 | In the nodes it leaves, the roots' balances add up to the balances of all accounts, and likewise the reconciled ones. |

## Left out

- Importing one entry, or importing one row, taken as a single step: `timeline.dfy` does so; the statement-level interleavings are in `delivery.dfy`, `dismissal.dfy`, `import_race.dfy` and, for pending and posted copies, `pending_race.dfy`.
- Importing.SuggestionImports: for staged rows with a non-zero amount other than -2^63 and a positive int64 denominator; zero amounts never reach staging and the excluded amount is treated in its own rows.
- ImportRace.ExactlyOnce: requests only, with no sync, edit or database failure beside them; a failure between insert and cleanup would lose one count, not a transaction.
- AccountTree.TreeConservesMoney: for acyclic parents; with cycles the sum is over what is shown, which `AccountTree.ShownOnceIffRooted` describes.
- HTTP handlers, JSON, cookies, JWT, passwords, rate limits and configuration.
- The staging tables of several items of one book: one book and one item, as ids are unique per book; the cascade on disconnect empties staging and ends the claims about it.
- The account columns written by a sync (`last_synced_at`) and by a disconnect (unlinking): plain updates of metadata.
- The database engine, its isolation levels and its clock: a statement or explicit transaction is atomic.
- Text that is only copied (memos, descriptions of accounts, institution names, custom ids, enter dates) and row versions of accounts and transactions.
- Reduce, Equal, Cmp, Abs, ToFloat64 and FormatDecimal of the numeric package: no modelled operation uses them.
- Floats: displayed balances and totals are exact rationals here; the wizard's half-cent tolerance is not modelled.
- The client's sort of merged pages and of the wizard's lists: entries are compared as a multiset, in the wizard in the order of loading.
- Unicode lower-casing and trimming in the categorizer: both paths see text that is already normalised.
- The Plaid client with its float-to-cents step, CSV and GnuCash import, search, dashboards and seeds: not modelled.
- A run whose bank call fails is a run that stops between two statements; the bank never answers with pages out of order.
