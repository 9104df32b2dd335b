# Verified model of the NFT indexer's stateful core

The indexer keeps NFT tokens, their owners and their sales in MongoDB, feeds a staged queue of NFT events in Postgres, and
refreshes both from several chains. This project models the parts of it that hold state machines or arithmetic, one module
each, and proves what they keep, what they refine and where they fall short of it.

- `EventPipeline`, `EventStore`: the staged event queue. `EventPipeline` is the transition system (push, claim, commit,
  rollback, prune) with its invariants over all runs; `EventStore` has the store and the transaction objects as classes whose
  methods are proved to take exactly those transitions. Rows are named by the number of the accepted push that made them. A
  ledger of committed processor runs is kept beside the tables as a history; no step reads it.
- `ProvenanceLock`, `AccountIndex`, `SwapLineage`: the writes on `tokens` and `account_tokens` as functions on one document
  or table, with the laws about every interleaving, order and run. `IndexerStore` has the two collections as fields of a class;
  its methods are proved against those functions. `RefreshWorker` has the clients that write both collections.
- `PagedQuery`: the paging loops against a one-line drop, filter, take.
- `SaleAccounting`, `TokenCollapse`: the payment fold of both chains, and the collapse of token transfers.
- `SaleRecords`, `CanonicalKeys`: the sales time series with its canonical key.
- `RangeTiling`, `RateLimiter`, `Numerals`, `IndexIDs`, `Configuration`: windows and block ranges, the token bucket,
  numeral and index-id conversions, and the flattening of nested maps into dotted paths.
- `Options`, `Tokens`, `MapSum`: shared types, and sums over maps.

Assumptions: a database call is one atomic step, the unique index on (indexID, ownerAccount) holds, `FOR UPDATE SKIP LOCKED`
hides locked rows. Clocks, configuration, and the answers of chains and of other services are parameters. The EIP-55 checksum
is a parameter that is idempotent and gives no dash; SHA-1 is a parameter, injective where that matters. Times of tokens are
integers in milliseconds.

## Where the code is less than one would expect

- A failed processor run falls through: the row is marked failed and still advanced or archived. A failed row in the queue is
  never selected again (`FailedRowsAreStuck`); at the last stage the failure is lost, since the archive writes `processed`
  (`LastFailureIsInvisibleIff`).
- The archive drops the event index. An event with a nonzero index is accepted again once archived, and it blocks a sibling
  with index zero that was never pushed (`PushAcceptance` is the exact condition).
- `SwapToken` does not clear `swappedTo` of an existing target, because an absent value is not written. `SwapKeepsLineageIff`
  says exactly which calls keep the lineage; a late retry revives a token that was swapped on (`LateRetryRevives`). Account
  rows whose owner already has a row under the new id conflict with the unique index; `SwapToken` covers both an abort of the
  transaction, which loses nothing, and a partial move followed by the delete, which may lose balance: `SwapConservesIff` says
  exactly when a call cannot.
- Pending fields of an account row are not written when empty, so the order of submissions can show in them
  (`OrderDoesNotMatterIff`).
- An empty owner list leaves the token document alone and zeroes the index (`RefreshAgreesIff`). An upsert that fails is only
  logged; its account is then zeroed with the unlisted ones (`FailingUpsertsAgreeIff`).
- Pushing onto a null provenance is an error of the database, not a miss (`PushProvenance`).
- The first stage of a transfer gives the new owner a row and leaves the former owner's row as it is, so document and index
  disagree until the refresh of the next stage (`UpdateLatestOwner` has the exact condition).
- Pages without a source count hidden rows in the offset, so pages repeat tokens unless hidden rows come last
  (`UnsourcedPagesTileIff`), though they lose none (`UnsourcedPagesLoseNothing`). Page size zero without a source returns the first whole page of rows. A page of collections whose
  size is a multiple of 25 is not limited at all (`CollectionsArePagedIff`).
- A fee wallet that is paid and pays on makes the platform fee overstate its share (`FeesAreSharesIff`).
- The id of an ERC-1155 token zero becomes the empty string (`ERC1155TokenIDText`), the amount of an ERC-1155 transfer is
  compared with one modulo 2^64 (`AcceptedValueIsOneIff`), and a log without topics panics (None in `ClassifyTxLogs`).
- A sale record that was written carries its unique id in the caller's own map, and is refused when submitted again
  (`StampedRecordFails`). A batch that fails has already deleted (`WriteTimeSeriesData`).
- The block-range scan with batch zero restarts in place for ever, and near 2^64 it restarts below the range (`ScanEndsIff`
  gives the exact condition).
- Converting an index id to decimal twice reads a decimal numeral as hexadecimal (`ConvertingAgainIff`); `QueryNFTs` leaves
  ids at or above 2^63 in decimal (`QueryEchoesIff`).
- Flattening drops empty maps (`FlatteningLosesEmptyMapsOnly`). Its outcome depends on the order of the keys exactly when two
  leaves with the same dotted path differ (`FlatteningHasOneOutcomeIff`); its only caller passes fixed field names without
  dots, so no caller reaches that.

## Model

| member | source | states |
|---|---|---|
| EventPipeline.WorkerTableFollowsPaths | services/event-processor/token_event_processor.go:90-160 | every worker takes a type one position further along its path (transfer 1, 2, 5; burned 1, 2; token_updated 1, 11; mint 1, 2, 5 without a consumer of 5) and archives exactly at its end |
| EventPipeline.WorkersPartitionStages | services/event-processor/token_update.go:42-59 | no two workers compete for one type at one stage, and a stage of a path has a worker iff it is not the end of a mint |
| EventPipeline.RunsKeepInv | services/event-processor/server.go:118-182 | every reachable state, under every interleaving of workers, keeps the four invariants: rows match their committed runs, claims match their rows, index-zero events are live once, runs are bounded |
| EventPipeline.CommitKeepsInv | services/event-processor/server.go:156-177 | one commit, of a successful or a failed processor run, keeps the invariants |
| EventPipeline.RowsFollowTheirPaths | services/event-processor/server.go:118-182 | a created row at position k of its path had exactly the k earlier stages run, each committed and successful; a failed row is past the first stage and its last run failed |
| EventPipeline.ArchivedEventsRanEveryStage | services/event-processor/store.go:151-170 | an archived event ran every stage of its path, in order |
| EventPipeline.NoRowIsHeldTwice | services/event-processor/store.go:275-296 | no row is held by two open transactions, and what a transaction read is still what the table holds |
| EventPipeline.FailedRowsAreStuck | services/event-processor/server.go:156-177 | a failed row is past the first stage, no worker selects it, no further step changes it |
| EventPipeline.EachPushIsOneRecord | services/event-processor/store.go:257-300 | an accepted push is never in both tables, and it is one record in one of them iff no pruning step of the run deleted that very record, archived and older than the step's cutoff |
| EventPipeline.PushAcceptance | services/event-processor/store.go:257-272 | a push is accepted iff the same event is not queued and, for index zero only, no archived push agrees on every field but index and time |
| EventPipeline.IndexZeroIsAcceptedOnce | services/event-processor/store.go:257-272 | of two accepted pushes of one event with index zero, the record of the earlier one was deleted by a pruning step before the later one was accepted, in any interleaving |
| EventPipeline.RecordsKeepTheirPushTime | services/event-processor/store.go:92-92 | in every run a record, queued or archived, has the creation time and the event of the push it was accepted from |
| EventPipeline.PruningGoesByPushTime | services/event-processor/store.go:298-300 | a pruning deletes exactly the archived records pushed before its cutoff |
| EventPipeline.ClaimsGoByPushTime | services/event-processor/store.go:275-296 | a worker claims, of the rows waiting for it, one pushed no later than any other |
| EventPipeline.SelectableIff | services/event-processor/server.go:126-148 | a worker can claim a row iff nobody holds it, no run of it failed, its next stage is the worker's, and it has waited the configured delay or the 60 s of the second token_updated stage |
| EventPipeline.EveryWaitingRowHasAWorker | services/event-processor/server.go:118-148 | a row with a stage to go and no failed run has exactly one worker, which can claim it as soon as nobody holds it and it has aged |
| EventPipeline.CommitsAreBounded | services/event-processor/server.go:162-177 | n pushes admit at most 3n committed transactions, and each commit lowers the remaining measure by one |
| EventPipeline.CommitsAreRuns | services/event-processor/server.go:162-177 | the commits of a run are the processor runs recorded, one each |
| EventPipeline.NonzeroIndexIsAcceptedAgain | services/event-processor/store.go:152-163 | an archived event with a nonzero index is accepted a second time |
| EventPipeline.SiblingWithIndexZeroIsLost | services/event-processor/store.go:152-163 | an archived event with a nonzero index makes the store refuse its never-pushed sibling with index zero |
| EventPipeline.LastFailureIsInvisibleIff | services/event-processor/server.go:156-177 | in every run and for every open claim, committing a failure leaves the same tables as committing a success iff the worker archives; otherwise the row shows it as failed |
| EventStore.OldestCandidate | services/event-processor/store.go:275-296 | the locking query returns a selectable, unlocked row that is not younger than any other, or none when there is none |
| EventStore.PostgresEventStore.constructor | services/event-processor/store.go:246-254 | a new store is the initial state |
| EventStore.PostgresEventStore.CreateNftEvent | services/event-processor/store.go:257-272 | insert-if-absent is the push transition: a new row at the first stage, created now, or nothing; invariants kept |
| EventStore.PostgresEventStore.GetNftEventTransaction | services/event-processor/store.go:275-296 | a claim is an enabled claim transition; none means that no row is selectable |
| EventStore.PostgresEventStore.DeleteNftEvents | services/event-processor/store.go:298-300 | the prune transition, invariants kept |
| EventStore.NftEventTx.UpdateNftEvent | services/event-processor/store.go:133-148 | an update of neither field, or on a finished transaction, fails; otherwise the named fields are written |
| EventStore.NftEventTx.ArchiveNFTEvent | services/event-processor/store.go:151-170 | archiving is written unless the database fails or the transaction is finished |
| EventStore.NftEventTx.Commit | services/event-processor/server.go:177-177 | a commit is the commit transition, or, when the database fails, the rollback transition |
| EventStore.MarkIfFailed | services/event-processor/server.go:156-162 | a failed processor marks the row, or rolls the transaction back when that fails; a successful one changes nothing |
| EventStore.MoveOn | services/event-processor/server.go:164-175 | the row is moved to the archive or the next stage, or the transaction is rolled back; on a finished transaction nothing happens |
| EventStore.FinishNftEvent | services/event-processor/server.go:156-177 | the whole body of the worker loop is one commit transition or, as soon as any call failed, one rollback |
| ProvenanceLock.SameStampSameToken | store.go:797-832 | with clock stamps that never repeat, equal stamps at two moments mean that nothing was written in between |
| ProvenanceLock.PushExtendsWhatItsReaderSaw | store.go:797-832 | a push that succeeds finds the whole token as its reader saw it and prepends to exactly the list that reader saw |
| ProvenanceLock.OnePushPerLock | store.go:797-832 | in any interleaving at most one push per lock value succeeds |
| ProvenanceLock.RefreshIsInOrderIff | store.go:730-759 | a refresh leaves the list newest first, headed no later than the activity time, iff it was given a newest-first list |
| ProvenanceLock.InterleavingsKeepOrder | store.go:704-832 | every interleaving of the four writes keeps the list newest first with its head no later than the activity time |
| ProvenanceLock.InterleavingsKeepOwnersListed | store.go:762-794 | the owners map and the owners array name the same addresses after every interleaving |
| ProvenanceLock.LastWriteDecides | store.go:704-832 | in any interleaving the last write that was taken decides owner, owners, times and list as its call says, and leaves the rest to the writes before it |
| ProvenanceLock.InterleavingsKeepIdentity | store.go:704-832 | no interleaving touches base info, asset, edition, origins or swap links |
| ProvenanceLock.LastOwnerUpdateBurns | store.go:704-727 | whether a token is burned is decided by its last owner update alone |
| ProvenanceLock.LastMintDecides | store.go:730-759 | the mint time is that of the oldest record of the last refresh whose oldest record is a mint or an issue |
| ProvenanceLock.WritesRaiseTheActivityTime | store.go:704-832 | a push or owner update is taken iff it raises the activity time, and never lowers it |
| AccountIndex.StoredTimeKeepsUp | store.go:1309-1337 | the stored activity time is at least every submitted one less 15 s, and accepted writes rise by more than 15 s each |
| AccountIndex.NewestWins | store.go:1309-1337 | from any row or none, submissions more than 15 s apart end, in any order, with the newest one's balance and times if the row takes it, and otherwise leave the row as it is |
| AccountIndex.OrderDoesNotMatterIff | store.go:1309-1337 | from any row or none, every permutation ends in the same row iff the newest submission carries each pending field into which a submission that the row takes would bring another value |
| AccountIndex.OrderShows | structs.go:265-274 | when it does not, two orders of the same submissions that end in different rows |
| AccountIndex.BatchActsPerRow | scripts/init_mongodb.js:375-378 | a batch acts on each row as the submissions for that row alone, and on no row of another owner |
| AccountIndex.BalancesFollowTheList | store.go:1393-1440 | afterwards every account's balance is what the list says, the last entry of a duplicate winning and zero for the others; other tokens' rows are untouched, no row is removed |
| AccountIndex.OwnersRowsAre | store.go:1407-1437 | row by row: a listed address has base info, balance and time of its last entry and the moment as refresh time, pending fields kept; any other row of the token keeps all but a zero balance and the refresh time |
| AccountIndex.RefreshAgreesIff | background/worker/activities.go:512-580 | when no upsert fails, document and index agree after an ownership refresh iff the list is not empty or the document held only zero shares |
| AccountIndex.FailingUpsertsAgreeIff | store.go:1410-1437 | with failing upserts and a nonempty list they agree iff for every address whose last entry fails the earlier successful ones left the same balance; for distinct addresses, iff every failing entry is zero |
| AccountIndex.ProvenanceRefreshAgrees | background/worker/activities.go:409-509 | after a provenance refresh document and index agree on the head owner alone, with one unit |
| SwapLineage.SwapKeepsLineageIff | store.go:440-546 | a swap keeps the lineage invariant iff its target is not the original, not swapped on, and linked from nowhere else |
| SwapLineage.RunsKeepLineage | store.go:440-546 | every run of calls over both collections, each refused, aborted or with a good target, keeps the lineage and has no account row under the id of a token swapped on; no token disappears and none is un-swapped |
| SwapLineage.NoRowKeepsAnOldID | store.go:513-532 | at the end of a run no account row has the original's id of any call that went through at any point of it |
| SwapLineage.RunsConserveBalances | store.go:513-532 | over a run the total balance falls by exactly what the calls deleted |
| SwapLineage.SafeRunsConserve | store.go:513-532 | a run in which every call that goes through is safe (no owner has rows under both ids, or nothing is held under the old one) conserves the total; refused and aborted calls lose nothing |
| SwapLineage.SwapConservesIff | store.go:513-532 | for balances that are not negative, a call conserves the total for every choice of rows the database may move iff it is safe |
| SwapLineage.NextCallConservesIff | store.go:491-541 | the same for one more call after any run; an aborted one changes nothing |
| SwapLineage.OriginListIsTheLineage | store.go:470-505 | following `swappedFrom` meets distinct, existing, burned tokens and ends; the origin list is their base infos, then the root's own |
| SwapLineage.LinksAreInjective | store.go:470-505 | swap paths are disjoint: a token comes from at most one and goes to at most one, never itself |
| SwapLineage.SwapEndsAtTarget | store.go:470-505 | a call leaves its target live at the end of its path, the original burned just before it |
| SwapLineage.SwapWrites | store.go:472-505 | a call writes the new token on the new chain under the new contract, with the original's owners, provenance, asset, edition and times, marks the original, and changes no other document |
| SwapLineage.LastSwapDecides | store.go:472-505 | over a run the last call that wrote a target decides its document: the swap of its original as that was at the call |
| SwapLineage.RetryChangesNothing | store.go:459-468 | an immediate retry changes no token |
| SwapLineage.LateRetryRevives | store.go:459-505 | a retry after the target was swapped on leaves a token in mid-path that is not burned |
| SwapLineage.SwapMovesBalances | store.go:513-532 | one call: no row keeps the old id; the total balance falls by exactly what was deleted, by nothing without conflicts, and then each owner holds under the new id what it held under either |
| SwapLineage.MovedRowsKeepTheirContents | store.go:513-520 | a moved row keeps owner, balance, base and pending fields under the new id and is stamped with the moment; rows of other tokens stay |
| SwapLineage.NothingIsLost | store.go:513-532 | without conflicts the deleted rows sum to zero |
| IndexerStore.MongodbIndexerStore.UpdateOwner | store.go:704-727 | the guarded owner write on the named non-fungible document alone |
| IndexerStore.MongodbIndexerStore.UpdateTokenProvenance | store.go:730-759 | the provenance rewrite, nothing on an empty list, mint time from the last record |
| IndexerStore.MongodbIndexerStore.UpdateTokenOwners | store.go:762-794 | the loop builds exactly the last balance per address and the address list; nothing on an empty list |
| IndexerStore.MongodbIndexerStore.PushProvenance | store.go:797-832 | the locked push: its effect, that it succeeds iff lock, time guard and list allow it, that it is a database error iff only the null list is in the way, and that it is refused iff the record has no former owner |
| IndexerStore.MongodbIndexerStore.IndexAccountTokens | store.go:1309-1337 | the loop applies each submission under the 15 s guard to its own row |
| IndexerStore.MongodbIndexerStore.UpdateAccountTokenOwners | store.go:1393-1440 | for any set of failing upserts, the loop and the zeroing give the rows of the list without the failing entries; a missing token changes nothing |
| IndexerStore.MongodbIndexerStore.SwapToken | store.go:440-546 | the whole transaction with its refusals in order; the new token is the original on the new chain; refused or aborted it changes nothing |
| RefreshWorker.FetchEthereumProvenance | background/worker/activities.go:353-401 | the list is the logs newest first, each with its kind, owner, time and transaction, headed by the owner that replaying them oldest first gives |
| RefreshWorker.FetchProvenance | background/worker/activities.go:429-461 | the records of one chain: the contract's logs for Ethereum, what the indexer answers for Bitmark and Tezos, nothing for any other |
| RefreshWorker.HistoryIsEveryChain | background/worker/activities.go:428-487 | a record is in the whole history iff the token's own chain or one it came from knows it |
| RefreshWorker.SuccessiveChainsAreNewestFirst | background/worker/activities.go:464-489 | the histories of a token and of the chains it came from, when successive, join to one newest-first list |
| RefreshWorker.ReplayedOwnerHeads | background/worker/activities.go:353-401 | the whole history of a token with Ethereum logs is headed by the owner that replaying those logs oldest first gives |
| RefreshWorker.RefreshTokenProvenance | background/worker/activities.go:409-509 | the loop: a token that is fungible, up to date or refreshed within the delay stays; any other with a history, refreshed before the delay, is rewritten with that history and ends with one unit at its newest owner, for Ethereum logs the replayed owner, unless the upsert fails; everything else is unchanged |
| RefreshWorker.RefreshOneTokenProvenance | background/worker/activities.go:416-505 | the same for one token, with its skip rules |
| RefreshWorker.RefreshTokenOwnership | background/worker/activities.go:512-580 | the loop: a token that is not fungible, refreshed within the delay or current on its chain stays; any other gets the balances and row times its chain lists, less the failing upserts, agreeing with its document exactly under the conditions of RefreshAgreesIff and FailingUpsertsAgreeIff; all else is unchanged |
| RefreshWorker.RefreshOneTokenOwnership | background/worker/activities.go:533-577 | the same for one token, with the skip rules of the three kinds of token |
| RefreshWorker.PushOrUpdateOwner | services/event-processor/token_event_processor.go:38-56 | the document: the new owner is stored unless a later activity already is; a push under a fresh read extends the list that was read; no other document changes |
| RefreshWorker.IndexNewOwner | services/event-processor/token_event_processor.go:58-70 | the index: the new owner's row is what submitting one unit under the 15 s guard makes of it; no other row changes |
| RefreshWorker.UpdateLatestOwner | services/event-processor/token_event_processor.go:18-87 | nothing but for a transfer of a known non-fungible token; then both writes with their frames; when the owner is bound to be written, document and index agree afterwards iff nobody else held anything and the new owner's row takes the unit or has it already |
| PagedQuery.GetPageCounts | store.go:614-620 | the number of pages is the least that covers the items |
| PagedQuery.GetDetailedTokensV2InView | store.go:1746-1783 | every result is the view's document of an asked id, burned only if asked for and of the asked source, each once; a query over all given ids returns every such document |
| PagedQuery.GetDetailedTokensV2 | store.go:1701-1743 | so do its sub-pages taken together |
| PagedQuery.FetchNext | store.go:1603-1650 | one turn fetches the next raw rows and the documents of exactly their visible ids; it ends the loop only with all rows or enough visible ones, and makes progress otherwise |
| PagedQuery.FetchPages | store.go:1599-1651 | the loop ends, with a prefix of the rows that holds enough visible ones or all, and the documents of exactly its visible ids |
| PagedQuery.GetDetailedAccountTokensByOwners | store.go:1584-1688 | for a positive size: take(size) of the visible joined rows after drop(offset), the offset counting raw rows without a source and visible rows with one; for size zero, the first page of rows without a source, and a prefix of the visible rows after the offset with one |
| PagedQuery.PageShows | store.go:1660-1687 | every entry of a page has owner, balance and times of a row and the document of its token, burned only if asked for and of the asked source; a page long enough for all rows has every row whose document qualifies |
| PagedQuery.SelectPage | store.go:1653-1687 | the loop over the fetched rows skips, joins and stops as drop and take do |
| PagedQuery.SourcePagesTile | store.go:1584-1688 | with a source, adjacent pages join to the page of their sizes' sum |
| PagedQuery.UnsourcedPagesTileIff | store.go:1584-1688 | without a source all pages tile iff no hidden row comes before a visible one |
| PagedQuery.UnsourcedPagesLoseNothing | store.go:1584-1688 | without a source every visible row is in the page of any raw range it lies in |
| PagedQuery.GetCollectionsByCreators | store.go:2220-2267 | take(size) after drop(offset), except that a size that is a multiple of 25 returns everything after the offset |
| PagedQuery.CollectionsArePagedIff | store.go:2220-2267 | the page is the one asked for iff the size is no multiple of 25 or nothing follows it |
| SaleAccounting.SharesAreBalances | background/worker/workflows_detector.go:370-399 | an address has a share iff it was paid; the share is what it received less what it sent from its first receipt on |
| SaleAccounting.PriceIsOutsideMoney | background/worker/workflows_detector.go:370-399 | the price is the sum of the payments whose sender was not yet a recipient |
| SaleAccounting.SharesSumToPrice | background/worker/workflows_detector.go:370-399 | the shares sum to the price after every payment, skipped destinations left out |
| SaleAccounting.FeeShares | background/worker/workflows_detector.go:395-399 | the fee wallets' shares are the fee less what the fee wallets passed on |
| SaleAccounting.FeesAreSharesIff | background/worker/workflows_detector.go:445 | fee and net revenue are the fee wallets' and all others' shares iff the fee wallets passed nothing on |
| SaleAccounting.NothingPassedOnIff | background/worker/workflows_detector.go:395-399 | for amounts that are not negative that is iff every payment made by a fee wallet that was paid is zero |
| SaleAccounting.NoFeeWalletSends | background/worker/workflows_detector.go:445 | if no fee wallet is itself a sender, the platform fee is the fee wallets' total share and the net revenue the total share of all others |
| SaleAccounting.FoldPayments | background/worker/workflows_detector.go:370-399 | the loop's shares, price, fee and net revenue, stated on the payments alone |
| SaleAccounting.AddRevenueShare | background/worker/activities.go:863-893 | one plain transfer of an Objkt operation is one step of the same fold |
| SaleAccounting.AddPart | background/worker/activities.go:840-893 | one applied part of an operation: a sale call, moved tokens, or one step of the fold |
| SaleAccounting.ParseTezosObjktTokenSale | background/worker/activities.go:813-917 | a sale iff all parts applied and decode, a sale entry point is called and a token moves; its books are the fold of the plain transfers; no sale iff the first bad part was not applied |
| SaleAccounting.SaleTells | background/worker/activities.go:839-893 | in terms of the parts alone: shares, price and fee are those of the plain transfers that do not go to the treasury proxy, and the bundle is every token that a transfer call moves, with its seller and buyer |
| TokenCollapse.ClassifyTxLogs | background/worker/workflows_detector.go:452-471 | exactly the ERC-20 logs by contract and exactly the token logs, in order, told by signature hash and number of topics; a log without topics makes it panic |
| TokenCollapse.KeysTellTokensApart | background/worker/workflows_detector.go:239-239 | contract and token id are recovered from the key when contracts have no dash |
| TokenCollapse.CollapseTransfers | background/worker/workflows_detector.go:180-262 | the loop gives the collapsed map of the transfers the logs stand for, sender, recipient and token read from the topics that EIP-721 and EIP-1155 name, or no sale iff a log is malformed, moves another amount or its token is not published |
| TokenCollapse.AcceptedValueIsOneIff | background/worker/workflows_detector.go:206-212 | an accepted ERC-1155 log moves one unit iff its value fits in 64 bits; one unit and 2^64 + 1 units are both accepted |
| TokenCollapse.CollapsedEntryTells | background/worker/workflows_detector.go:236-256 | an entry starts at the token's owner before the logs and ends at its owner after them |
| TokenCollapse.CollapseKeepsOwnership | background/worker/workflows_detector.go:236-262 | if the transfers are valid ownership steps, the entries in any order are too and end in the same ownership |
| TokenCollapse.CollapseKeepsLoggedOwnership | background/worker/workflows_detector.go:183-262 | if every log's sender owns its token at its moment, the collapsed entries in any order are valid steps and end in the ownership that replaying every log gives |
| TokenCollapse.OneEntryPerToken | background/worker/workflows_detector.go:236-262 | there is one entry for each token that was transferred and no other |
| CanonicalKeys.SortsAlikeIff | store.go:2386-2387 | two id lists sort alike iff they are equal as multisets |
| CanonicalKeys.FirstDifferenceDecides | store.go:2386-2387 | ids are ordered by their first difference, a beginning before what it begins |
| CanonicalKeys.KeyOfOne | store.go:2386-2392 | the key text of one transaction with one token, and with two in either order |
| CanonicalKeys.JoinIsInjective | store.go:2389-2392 | joining nonempty ids free of commas and bars loses nothing |
| CanonicalKeys.SameKeyIff | store.go:2386-2392 | two records with plain ids share a pre-hash key iff their transactions and tokens are equal as multisets |
| CanonicalKeys.OtherIDsCollide | store.go:2386-2392 | other ids make different records share a key: one id with commas stands for any list, a bar moves between transactions and tokens, an empty id stands for none |
| SaleRecords.SalesStore.WriteTimeSeriesData | store.go:2320-2492 | success iff every record passes; it replaces exactly the documents with a key of the batch by the document of the first record per key; failure inserts nothing and removes exactly the documents of the earlier keys |
| SaleRecords.SalesStore.DeleteAndCollect | store.go:2325-2476 | the loop has deleted the documents of exactly the keys it collected, first record per key, up to the first failing record |
| SaleRecords.CheckRecord | store.go:2335-2453 | a record fails, repeats a key, or adds one; values of a repeated key are never read |
| SaleRecords.UniqueIDTells | store.go:2326-2392 | a record has a unique id iff its time parses, no metadata name is reserved, and transactions and bundle have their form; it is the hash of its transaction ids and of blockchain, contract and token id of every item |
| SaleRecords.PassesIff | store.go:2326-2453 | a record passes iff it has a unique id and, unless an earlier record has the same, its values and shares are decimals under names that are not reserved |
| SaleRecords.FirstsTell | store.go:2395-2475 | the document kept for a key has time, metadata with the id added, values and shares of the first record with that key |
| SaleRecords.WriteKeepsKeysUnique | store.go:2455-2489 | a successful write keeps one document per key at most, and has for each key of the batch its first record |
| SaleRecords.WritingAgainChangesNothing | store.go:2455-2489 | writing equal records again leaves the same documents |
| SaleRecords.StampedRecordFails | store.go:2399-2399 | the very record that was written is refused the next time |
| SaleRecords.SameUniqueIDIff | store.go:2386-2392 | with an injective hash, two records with plain ids share a unique id iff they sell the same tokens in the same transactions, counted |
| RangeTiling.WindowsTile | background/worker/workflows_exchange_rate.go:68-76 | the windows join from start to end, each of 18000 s but the last, which is not empty, and every moment lies in exactly one |
| RangeTiling.RequestsAre | background/worker/workflows_exchange_rate.go:75-82 | every pair is asked for in every window, window by window and pair by pair, from the window's start to its end |
| RangeTiling.Batches | background/worker/workflows_exchange_rate.go:68-90 | flattening the batches gives windows times pairs in order; all but the last have 25 requests, none is empty |
| RangeTiling.CrawlHistoricalExchangeRate | background/worker/workflows_exchange_rate.go:40-92 | an unsupported pair or an empty range crawls nothing; otherwise the batches of the range, by default the one since the last stored time |
| RangeTiling.IndexEthereumTokenSaleInBlockRange | background/worker/workflows_indexer.go:152-224 | one execution: refused, invalid, or the queried range with the restart point, in 64-bit arithmetic |
| RangeTiling.StepsAre | background/worker/workflows_indexer.go:167-221 | the number of executions is the range in batches, rounded up |
| RangeTiling.BoundaryIff | background/worker/workflows_indexer.go:211-221 | the blocks reached by steps of the batch size are those whose distance from the first one divides by it |
| RangeTiling.ScanCoversTheRange | background/worker/workflows_indexer.go:167-221 | a block of the range is visited once, an interior one whose distance from the first divides by the batch size twice, any other block never |
| RangeTiling.ScanRangesMeet | background/worker/workflows_indexer.go:167-221 | consecutive ranges meet at a boundary, from the first block to the last, each at most one batch |
| RangeTiling.ScanEndsIff | background/worker/workflows_indexer.go:167-221 | a scan ends, never querying backwards, iff its last step fits in 64 bits and the batch is positive or the range one block |
| RangeTiling.EmptyBatchStandsStill | background/worker/workflows_indexer.go:211-221 | with batch zero a longer range restarts in place for ever |
| RateLimiter.SendNeverBlocks | externals/opensea/client.go:153-165 | in every interleaving of ticker and callers the channel holds 0..rps tokens and no send blocks |
| RateLimiter.GrantsAreCovered | externals/opensea/client.go:153-173 | grants and stored tokens are the sends, and sends are at most rps per tick |
| RateLimiter.GrantsPerStretch | externals/opensea/client.go:153-173 | a stretch of a run that overlaps k ticks grants at most (k+1) times rps requests |
| RateLimiter.Limiter.Fill | externals/opensea/client.go:155-162 | a tick with no caller in between is a run of the machine, a tick and then checks and sends, that fills the channel |
| RateLimiter.Limiter.Request | externals/opensea/client.go:167-173 | a request is the machine's request step, and takes nothing when nothing is limited |
| Numerals.ParseText | utils.go:239-246 | reading a written number gives it back, in both bases, for every integer |
| Numerals.DigitsInPlace | utils.go:239-246 | the digits in either case, the places and the sign, for both bases |
| Numerals.NoNumeral | utils.go:239-246 | what is no hexadecimal numeral becomes the empty text; what is no decimal numeral has no hexadecimal form |
| Numerals.TextParseIff | utils.go:28-35 | writing a number that was read gives the text back iff the text is canonical |
| Numerals.ConversionsInvertIff | utils.go:28-35 | the two conversions invert each other, in both directions, iff the numeral is canonical, at any length |
| Numerals.DecimalReadAsHex | utils.go:239-246 | a decimal text read as hexadecimal is the same number only below ten, and larger otherwise |
| Numerals.ERC1155TokenIDText | background/worker/workflows_detector.go:207-217 | the id of an ERC-1155 transfer becomes its decimal text iff it is not zero |
| IndexIDs.ParseOfThree | utils.go:54-65 | what parsing makes of any three joined parts |
| IndexIDs.IndexIDsAre | utils.go:39-50 | the text of an index id on each chain |
| IndexIDs.IDsRoundTripIff | utils.go:39-65 | parsing recovers alias, normalized contract and id iff neither part has a dash, and fails otherwise |
| IndexIDs.NormalizeTells | utils.go:176-198 | what becomes of three dashless parts: an Ethereum contract is checksummed and its token id converted if asked for, any other id stays |
| IndexIDs.OnlyIDsAreKept | utils.go:176-198 | whatever is kept is three dashless parts |
| IndexIDs.NormalizedAre | utils.go:176-198 | the result holds the normalized form of every id that has one, and nothing else |
| IndexIDs.NormalizeIndexIDs | utils.go:176-198 | the loop keeps the normalized form of the ids that parse; without conversion, doing it again changes nothing |
| IndexIDs.NormalizeIsIdempotent | utils.go:176-198 | normalizing without conversion is idempotent |
| IndexIDs.ConvertingAgainIff | utils.go:176-198 | converting a second time keeps an id iff its number is below ten |
| IndexIDs.RewriteIndexIDs | services/api-gateway/query.go:43-69 | the loop rewrites every entry in place |
| IndexIDs.QueryEchoesIff | services/api-gateway/query.go:43-69 | the answer echoes the normalized request id iff that is canonical lower-case hexadecimal below 2^63 |
| Configuration.FlattenMap | utils.go:345-357 | the result is what visiting the keys in some order writes; every leaf is written at its dotted path, and a field has the value of a leaf with that path or is as before |
| Configuration.EveryOrderFlattens | utils.go:345-357 | so it is for every order of the keys, at every level |
| Configuration.LeafComesLast | utils.go:345-357 | every leaf comes last in some order, and its field then has its value |
| Configuration.FlatteningHasOneOutcomeIff | utils.go:345-357 | all orders end alike iff no two leaves with the same dotted path carry different values |
| Configuration.FlatteningHasOneOutcome | utils.go:345-357 | with dot-free keys no two leaves share a path, and the outcome does not depend on the order |
| Configuration.DottedKeyHasTwoOutcomes | utils.go:345-357 | two keys and the same two joined by a dot, with different values: one order of the keys ends with the one value, another with the other |
| Configuration.TextIsReadBack | utils.go:345-357 | with dot-free keys the steps of a flattened path are the prefix's and the keys that led to the leaf |
| Configuration.FlatteningLosesEmptyMapsOnly | utils.go:345-357 | two maps flatten alike iff they are equal up to maps without a leaf |
| Configuration.MergeCommutesWithSet | store.go:2755-2769 | merging a tree into a document and then setting an unused path is merging the tree with that path set |
| Configuration.SettingLeavesIsMerging | store.go:2755-2769 | setting all flattened paths, in any order, is the recursive deep merge; on the empty document it gives the input back without its empty maps |
| Configuration.SetFields | store.go:2764-2769 | the database's setting of the flattened fields is that merge, refused iff the merge is |
| Configuration.ConfiguredTells | store.go:2755-2769 | leaf by leaf: under `attributes.configuration` every leaf of the configuration, anywhere that no path of it meets what the asset held, and nothing else |
| Configuration.RefusedIff | store.go:2764-2769 | an asset refuses a configuration iff one of its own leaves lies on the path of a leaf of the configuration |
| Configuration.AssetStore.SetOnAll | store.go:2764-2769 | the update of all matched assets: each is merged or, after a refusal, left; the others never change |
| Configuration.AssetStore.UpdateAssetsConfiguration | store.go:2736-2770 | on success every matched asset has the configuration merged in and no other changes; nil is an error, no leaves update nothing, a refused asset is reported |

## Left out

- HTTP, gRPC, GraphQL, Cadence, the blockchain clients and the emitters' loops: no logic of their own; their answers are parameters.
- The series-registry worker: on failure it continues without commit or rollback, so its runs depend on the lifetime of a connection.
- `IndexAsset`, which may lower the activity time of a token, is not among the interleaved writes, nor is `UpdateOwnerForFungibleToken`; metadata merging would add easy members only.
- EventStore.PostgresEventStore.CreateNftEvent: one atomic step; two inserts of one event on concurrent Postgres snapshots are not modelled.
- IndexerStore.MongodbIndexerStore.IndexAccountTokens: takes the row's owner account to be the owner argument, as every caller passes it.
- RefreshWorker.RefreshTokenOwnership: the tokens are given as the query returns them, each once and present; failed chain calls and failed document writes, which stop the loop, are not modelled.
- RefreshWorker.RefreshTokenProvenance: the same, and all tokens of one call share one clock reading.
- RefreshWorker.UpdateLatestOwner: the calls to the store succeed, apart from the refusals the model has; a failing one ends the run with an error after the writes before it.
- SaleRecords.SalesStore.WriteTimeSeriesData: records of one batch that share a metadata map, and failures of the database, are not modelled; number and time parsing are given per field as results.
- SaleRecords.SameUniqueIDIff: SHA-1 is taken as injective.
- PagedQuery.GetDetailedAccountTokensByOwners: one fixed snapshot with one view document per token; a snapshot that changes between pages is not modelled, nor is the sort order of the query, which is the order of the given rows.
- PagedQuery.GetCollectionsByCreators: sizes and offsets are not negative.
- RangeTiling.IndexEthereumTokenSaleInBlockRange: the sales indexed per range and failures of the node are not modelled.
- Configuration.AssetStore.UpdateAssetsConfiguration: field names are the fixed ones of the configuration, which have no dot and no leading dollar; a list inside a document is a leaf.
- The OpenSea fallback of 2.5 % (background/worker/workflows_detector.go:401-409): it rounds in floating point with an inexact constant.
- The marketplace lookup and the choice of the payment currency of an Ethereum sale: single-branch facts.
