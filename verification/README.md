# Verification of the blocsy indexing core

blocsy takes Solana blocks from a message queue, reads token movements off their transactions,
folds the movements into swaps, stores the swaps and computes the profit of wallets from them.
This project models that path in Dafny and proves what it guarantees: for every interleaving of the
goroutines, every delivery and failure of the broker and the database, every transaction and every
trading history.

## What is modelled

| file | part of the system |
|---|---|
| `FanOut.dfy` | the producer, workers, closer and collector of one message, as a state machine over atomic channel actions |
| `Broker.dfy` | broker, worker pool and table with redelivery, lost acknowledgements, failed or ambiguous inserts, disconnects and crashes |
| `SwapTable.dfy` | the swap table with its conflict key, and the bounded retry |
| `LogForest.dfy`, `LogWalks.dfy`, `RuntimeLog.dfy`, `PrintedLogs.dfy` | the stack parser of the runtime's log, its two recursive consumers, the lines the runtime prints, and what the consumers find in a log made of them |
| `Validation.dfy`, `Transactions.dfy`, `Instructions.dfy`, `TxParser.dfy` | from instructions to transfers and the programs they belong to |
| `DexSwaps.dfy`, `PumpFunEvent.dfy`, `SwapScan.dfy`, `SwapNetting.dfy`, `Pipeline.dfy` | from transfers to swaps, and the netting per wallet and token |
| `Blocks.dfy` | the whole way from the blocks in the queue to the rows of the table |
| `FifoLots.dfy`, `Splits.dfy`, `HeldArea.dfy`, `Ties.dfy`, `TokenProfit.dfy` | lot matching, sales in parts, holding time, the effect of equal timestamps, profit of a token |
| `Aggregate.dfy`, `PriceOrder.dfy` | profit of a wallet, and when the order of its goroutines shows |
| `Gaps.dfy` | finding and backfilling missing blocks |
| `DedupQueue.dfy`, `QueueProgress.dfy` | the deduplicating work queues for tokens and pairs, their order and progress |
| `Tlv.dfy` | the extension walk over a token mint account |
| `Domain.dfy`, `Folds.dfy` | addresses, transfers, swaps and stored records; sums that do not depend on the order |

Code that loops over variables is a method with invariants, proved against a specification whose
meaning is stated by lemmas; fields that methods update are fields of a class; goroutines are state
machines whose invariants hold over every run. Amounts are exact reals. An address is a datatype
value: the constants of `internal/solana/constants.go` are constructors.

## What the proofs found

Where the code does not do what one would expect of it, the model keeps the code and proves exactly
when the expectation holds.

- A message that is acknowledged has all its keys in the table, and a drained queue leaves the same
  keys whatever was redelivered. From every state that is reached, the messages published so far can all be
  settled, without another crash as long as some worker has not left (`Broker.EveryMessageGetsThrough`).
- The rows behind the keys depend on the order of insertion, unless no two different swaps share a new key
  (`SwapTable.RowsAreOrderFree`): the key has no wallet and no token (`SwapTable.SameKey`). Two transfers of equal amounts in one transaction do share a row (`Pipeline.TransfersShareRow`).
- The pair queue keeps its set of claimed addresses exact if and only if its channel never overflowed
  (`DedupQueue.PairsExactUnlessOverflow`); an address it turned away is never looked up again, and
  `DedupQueue.PairsOverflow` is a run in which this happens.
- Log entries with equal timestamps may be sorted either way. What is sold, the exact holding time and what
  stays open are the same for every sort if and only if at every time either nothing is acquired or no
  more is asked for than was open before (`Ties.TiesMatterExactly`); the truncated holding time then stays
  within a nanosecond per match (`Ties.TruncatedTimeIsClose`). `TokenProfit.TiesChangeTheResult` is a log
  on which the results differ.
- Once something was sold, reported profit is mark-to-market profit if and only if nothing is left or
  nothing was paid (`TokenProfit.PnLOfLog`); `TokenProfit.PartlySoldMisses` is a log that reports a loss
  where there is none.
- The value of the remainder is never converted into dollars: it is the same at every dollar price of the
  quote token, while what was paid and earned is multiplied by that price (`TokenProfit.PriceMissesRemainder`).
- A latest swap whose divisor is zero would yield an infinity or a panic (`TokenProfit.OutcomeKinds`),
  but no such row is stored: purchases and sales have positive amounts (`Pipeline.RecordsAreStorable`), in
  every row of the table (`Blocks.RowsAreStorable`), so on stored rows the calculation always yields
  figures (`TokenProfit.StoredRowsHaveFigures`).
- The goroutines of a wallet share a cache of prices but ask for them without the lock. For as many tokens as
  the semaphore lets run at once, the order of the goroutines leaves the prices used as they are if and
  only if every request that can be made would bring each token that counts the same answer
  (`PriceOrder.OrderShowsExactly`); with more tokens the condition is still enough, and necessary for the
  first hundred requests. `PriceOrder.MovingPriceShows` is a wallet whose totals differ.
- A truncated runtime log keeps its completed invocations and only the innermost open one
  (`LogForest.ParsePrefix`). Parsing panics if and only if a line opens an invocation and names no
  program (`LogForest.PanicsIffNameless`).
- A message counts as emitted data if its text contains the words for data: what is gathered for a program is
  exactly its data lines and such messages (`PrintedLogs.DataIsGathered`).
- A PumpFun event is found only if the first match of its discriminator in the hexadecimal text is
  aligned with the bytes (`PumpFunEvent.PayloadIsWhatFollows`); `PumpFunEvent.HiddenEvent` gives bytes
  in which an earlier, unaligned match hides a real event.
- A transfer that the swap scan passes over is part of a swap if and only if the transfer before it names a
  wallet and a pair (`SwapScan.PassedOverIsUsedOrLost`); otherwise it is lost. A PumpFun fee transfer loses
  the sale behind it this way (`SwapScan.FeeHidesSwap`, `SwapScan.FeeHidesSale`), an Orca pair with an
  unknown sender its second leg (`SwapScan.UnknownSenderLosesLeg`).
- Netting subtracts amounts of different tokens for purchases and sales, so a purchase alone under its
  wallet and token is dropped exactly when the two numbers are equal (`SwapNetting.LoneRecordVanishes`):
  a transaction whose only swap is read off two transfers ends in one record, or in none exactly when the two
  numbers are equal or the wallet is ignored (`Pipeline.PairIsRecorded`). Five tokens sold for one SOL are one
  sale (`Pipeline.FiveForOne`); one SOL paid for one token leaves nothing (`Pipeline.OneForOne`).
  Conservation in the usual sense holds for raw transfers with known owners
  (`SwapNetting.SurvivorsBalance`).
- Two inner groups of the same instruction can make two transfers share their place; places are unique
  if and only if no such clash occurs (`TxParser.PlacesUniqueUnlessClash`); `TxParser.PlacesClash` is a
  transaction in which one does.
- A backfilled block is marked before it is handed to the queue, and a failure there is silent. A block that
  exists is lost if and only if it was marked and not accepted (`Gaps.Backfill.Round`); a marked block is
  never asked for again, whether a node answered it with a block or with an error
  (`Gaps.Backfill.Rounds`). `Gaps.LoseBlock` is a round that loses a block.

## Model

| member | source | states |
|---|---|---|
| FanOut.StepInv | internal/solana/queue.go:260-294 | every action of producer, worker, closer or collector keeps each transaction in exactly one place and the channels in protocol |
| FanOut.NoPanic | internal/solana/queue.go:260-294 | no action of a reachable state sends on a closed channel, closes one twice or drives the wait group below zero |
| FanOut.MeasureDecreases | internal/solana/queue.go:264-294 | every action lowers a measure that is never negative, so every interleaving ends |
| FanOut.NotStuck | internal/solana/queue.go:264-294 | while the collector waits, some goroutine can move |
| FanOut.Collected | internal/solana/queue.go:264-294 | when the collector stops all workers have ended, every transaction was received or failed exactly once, and the swaps are a permutation of all outputs |
| FanOut.ResultsPermute | internal/solana/queue.go:291-294 | the bag of collected swaps does not depend on the order of the transactions |
| FanOut.EveryInterleaving | internal/solana/queue.go:260-294 | over whole runs: no panic, a bound on the length, progress until the collector stops, and the permutation at the end |
| Broker.StepInv | internal/solana/queue.go:229-314 | every event, failures and crashes included, keeps the ledger of messages, the meaning of delivery tags and the durability invariant |
| Broker.RunInv | internal/solana/queue.go:229-314 | the invariant holds after every run |
| Broker.MessageMoves | internal/solana/queue.go:229-314 | what every event does to every message: an acknowledgement that arrives moves exactly the delivered message from unacknowledged to acknowledged, a rejection to rejected, a delivery, loss or crash moves messages between ready and unacknowledged, and no other message moves |
| Broker.WorkerMoves | internal/solana/queue.go:229-329 | what every event does to every worker: it leaves after the third insert reported failed or a failed acknowledgement, retries before, and waits again after a rejection or an acknowledgement, which follows a reported insert or a message without swaps |
| Broker.RowsMove | internal/solana/queue.go:296-329 | the table changes only by an attempt that is carried out, whatever it reports, by exactly the missing keys of its message |
| Broker.AckedMeansStored | internal/solana/queue.go:296-308 | in every reachable state an acknowledged message has the key of each of its swaps in the table, and a message leaves the broker only by acknowledgement or because its body is malformed |
| Broker.DrainedTable | internal/solana/queue.go:233-308 | once the queue is drained, the table holds exactly the keys of all published swaps |
| Broker.EveryMessageGetsThrough | internal/solana/queue.go:229-329 | from the end of every run with at least one worker some continuation without a publication, and without a crash unless the worker had left, drains the queue: every decodable message is then acknowledged, every other one rejected, and the table holds exactly the keys of all published swaps |
| Broker.RunsAgree | internal/solana/queue.go:229-329 | two drained runs over the same messages end with the same keys, whatever was redelivered |
| Broker.RowsStay | internal/db/timescale_repo.go:124-131 | no run changes or removes a stored row |
| Broker.FanOutFeedsPool | internal/solana/queue.go:260-308 | what any interleaving of the goroutines collects is what the message calls for |
| Broker.RowsAreCalledFor | internal/solana/queue.go:229-329 | after every run each row of the table is one that a published message calls for |
| Blocks.Process | internal/solana/queue.go:267-276 | processing a transaction of a block ends with the outcome that the block's message is made of |
| Blocks.TableOfBlocks | internal/solana/queue.go:229-314 | once the queue is drained the keys in the table are exactly those of the swaps that the published blocks' transactions yield, whatever was redelivered, failed or crashed |
| Blocks.BlocksGetThrough | internal/solana/queue.go:229-314 | for all blocks and every pool with a worker there is such a run: each block is published and acknowledged, each undecodable body rejected, and the keys in the table are exactly those of the blocks' swaps |
| Blocks.RowsAreStorable | internal/solana/queue.go:291-308 | at any moment every row comes from a transaction of a published block and carries its first signature and the block's number and time, its amounts are not negative, and those of a purchase or sale are positive |
| SwapTable.InsertAdds | internal/db/timescale_repo.go:101-131 | an insert adds exactly the missing keys and leaves old rows as they were |
| SwapTable.InsertKnown | internal/db/timescale_repo.go:124 | inserting swaps whose keys are present changes nothing |
| SwapTable.InsertTwice | internal/db/timescale_repo.go:124 | inserting a batch twice is inserting it once |
| SwapTable.SameKey | internal/db/timescale_repo.go:124 | two swaps compete for a row iff they agree in signature, pair, action, both amounts, time and block, whatever wallet, source and token |
| SwapTable.FirstGetsRow | internal/db/timescale_repo.go:124 | of the swaps of a batch that compete for a free row the first gets it |
| SwapTable.KeysPermute | internal/db/timescale_repo.go:124 | the inserted keys do not depend on the order of the batch |
| SwapTable.RowsAreOrderFree | internal/db/timescale_repo.go:124 | for every table, the inserted rows do not depend on the order if and only if different swaps have different new keys |
| SwapTable.Repository.InsertSwaps | internal/db/timescale_repo.go:77-132 | an insert happens whole or not at all, possibly while reporting an error |
| SwapTable.Repository.InsertBatch | internal/solana/queue.go:316-329 | at most three attempts; success iff one was reported successful, and never a partial batch |
| LogForest.GetLogs | internal/solana/utils.go:128-161 | the loop computes the stack machine, including the panic on an invoke line without a second field |
| LogForest.PanicsIffNameless | internal/solana/utils.go:134-140 | parsing panics iff some line contains the invoke keyword and has fewer than two fields |
| LogForest.ParsePrint | internal/solana/utils.go:128-161 | parsing the printed log of any balanced forest returns the forest |
| LogForest.ParsePrefix | internal/solana/utils.go:128-161 | on every prefix of such a log the result is the completed roots and only the innermost open frame |
| LogForest.RunBody | internal/solana/utils.go:133-154 | inside an open invocation a balanced stretch adds exactly its lines and calls to that invocation |
| RuntimeLog.InvokeLineOpens | internal/solana/utils.go:134-140 | the line the runtime prints for an invocation opens one, with that program, whatever its depth |
| RuntimeLog.SuccessLineCloses | internal/solana/utils.go:141-153 | the line the runtime prints on success closes one and is not taken for anything else |
| RuntimeLog.LogLineAttaches | internal/solana/utils.go:141-142 | a program's log line is attached unless its text collides with the keyword |
| RuntimeLog.DataLineAttaches | internal/solana/utils.go:141-142 | so is a line of emitted data, unless its text collides with the keyword |
| RuntimeLog.ParseInvertsPrint | internal/solana/utils.go:128-161 | parsing inverts printing for forests in the runtime's own format |
| PrintedLogs.WalkIsWritten | internal/solana/utils.go:128-161 | for every log in which programs say, emit and invoke, the walk over the parsed log visits exactly the messages and data that the invoked programs wrote, each under its program, own lines before those of calls |
| PrintedLogs.DataIsGathered | internal/solana/dex/pumpfun.go:112-127 | from the printed log to what is gathered for a program: exactly the data its invocations emitted, and messages whose text passes for data, in the order of the walk |
| LogWalks.GatherData | internal/solana/dex/pumpfun.go:116-127 | the recursive walk gathers the data lines of the given program, in order |
| LogWalks.FindKeywords | cmd/api/routes/CheckBundled.go:16-35 | the recursive walk sets each flag iff some line of the forest mentions its keyword |
| LogWalks.IsTokenCreation | cmd/api/routes/CheckBundled.go:12-38 | true iff attached lines mention both keywords |
| LogWalks.WalkIsScan | internal/solana/utils.go:133-154 | walking the parsed forest and scanning the flat log see the same lines under the same programs |
| LogWalks.NewTokenLinesAreScanned | internal/solana/dex/pumpfun.go:116-127 | what is gathered is the multiset of data lines whose innermost open invocation is the given program |
| LogWalks.KeywordsAreScanned | cmd/api/routes/CheckBundled.go:16-37 | a keyword is found iff an attached line of the flat log mentions it |
| Transactions.SpotsFacts | internal/solana/txParser.go:93-136 | the order of the nested loops visits every instruction once, each outer one before its inner ones |
| Transactions.KeyOrder | internal/solana/utils.go:11-18 | account keys are the static ones, then the looked-up writable and read-only ones, and only the static ones without logs |
| Instructions.FindUserAccount | internal/solana/txParser.go:368-421 | the nested loops compute the search over all instructions in order of execution |
| Instructions.GatherFindsFirst | internal/solana/txParser.go:381-407 | user and mint are each the first non-empty one, and the account is found iff some instruction names it |
| Instructions.AccountIsFirst | internal/solana/txParser.go:368-421 | a token account is known iff some instruction names it, with the first user and the first mint named and the decimals of that mint's first later balance |
| Instructions.ClueOf | internal/solana/txParser.go:423-487 | which instructions name the owner of an account and what it holds, by program, kind and position |
| Instructions.BuildKeyMap | internal/solana/txParser.go:79-83 | the loop maps every account key to a position |
| Instructions.KeyMapIsLast | internal/solana/txParser.go:80-83 | exactly the keys of the transaction are mapped, each to its last position |
| Instructions.GetTokenBalanceDiffs | internal/solana/txParser.go:10-46 | the two loops record later balances and subtract earlier ones |
| Instructions.HoldingIsLast | internal/solana/txParser.go:13-22 | an account has the last of its later balances |
| Instructions.DiffIsChange | internal/solana/txParser.go:24-44 | a difference keeps mint, owner and decimals of the later balance, and its amount is the change since all earlier entries of the account |
| Instructions.HeldIsRecorded | internal/solana/txParser.go:308-332 | an account has a recorded holder iff the last later balance of its last position names an owner, and that balance gives owner, mint and decimals |
| Instructions.MintDecimalsAreFirst | internal/solana/txParser.go:549-562 | the decimals of a mint are those of its first balance, the later ones before the earlier ones, and unknown iff there is none |
| Instructions.ProcessInstruction | internal/solana/txParser.go:206-366 | a movement comes only from a resolvable system or token instruction, keeps its place, and has a non-negative amount |
| Instructions.MovementOf | internal/solana/txParser.go:216-365 | what an instruction comes to, by program and kind, with the accounts it names by their positions: a checked transfer moves from account 0 to 2 on the authority of 3, a plain one from 0 to 1 on that of 2, a mint to 1 on that of 2, a burn from 0 on that of 2, each with the mint it names; exactly these and the native transfer move something, and two kinds create a mint |
| Instructions.TransferCarriesLegs | internal/solana/txParser.go:308-360 | the mint is the first one known, the decimals are the last ones set, and the owners are the recorded or else the searched ones |
| Instructions.AmountsAreExact | internal/solana/txParser.go:343-347 | the amounts of two movements in the same decimals compare as the integer amounts that their instructions name |
| TxParser.FindParentProgram | internal/solana/txParser.go:177-204 | the backward loop with its two nested checks computes that parent; only the instructions back to it need resolve, and of those only what the checks read |
| TxParser.ParentOf | internal/solana/txParser.go:177-204 | the parent is the nearest accepted instruction at or before the transfer in its inner group, else the outer instruction if accepted, else nothing |
| TxParser.FirstPumpFun | internal/solana/txParser.go:499-510 | the data of the first PumpFun instruction at or after a position, empty iff there is none |
| TxParser.FindPumpFunSwapEvent | internal/solana/txParser.go:499-510 | the forward loop computes it for the transfer at hand; only the programs up to that instruction need resolve |
| TxParser.ParseTransaction | internal/solana/txParser.go:78-175 | the nested loops file what every instruction yields, in order of execution |
| TxParser.ParsedInOrder | internal/solana/txParser.go:93-174 | transfers come from increasing places, one from each instruction that moves a nonzero amount; burns and mints are exactly their type filters |
| TxParser.EmittedIs | internal/solana/txParser.go:93-152 | what an instruction yields: its movement with its place, its parent and the event behind it, unless nothing or a zero amount moves |
| TxParser.CreatedInOrder | internal/solana/txParser.go:110-169 | the mints created stand in order of execution, one for each instruction that creates one |
| TxParser.TransfersAreSound | internal/solana/txParser.go:95-151 | every transfer has a positive amount, a parent that is empty or passed both validators, and none if an outer instruction made it |
| TxParser.PlacesUniqueUnlessClash | internal/solana/txParser.go:130-150 | the two indices identify a transfer if and only if no two groups clash, which one group per instruction ensures |
| TxParser.PlacesClash | internal/solana/txParser.go:130-150 | a transaction with two inner groups of one instruction, whose transfers share their place |
| TxParser.FindTransfer | internal/solana/dex/utils.go:7-14 | the first transfer at a place, and the only one when places are unique |
| DexSwaps.ProcessTransfer | internal/solana/swapHandler.go:160-186 | the increment is at most one and never leaves the list, and only a supported program moves the cursor, over a transfer of its own |
| DexSwaps.VouchedIsHandled | internal/solana/swapHandler.go:173-184 | for a parsed transfer the repeated validation and the handlers' guards never reject, and the swap is made of the two legs |
| DexSwaps.RecognizedIsSwap | internal/solana/swapHandler.go:30-37 | the swap of a paired transfer names a wallet and a pair iff the transfer does, by its program's rule, and exchanges the two legs in the direction of that rule |
| DexSwaps.SwapIsRead | internal/solana/swapHandler.go:160-186 | the dispatch yields a swap exactly for a recognized transfer, paired if its program takes two: with its wallet and pair, and the amounts and tokens of the legs in the program's direction, or of the event |
| Validation.ValidatorsAgree | internal/solana/utils.go:36-118 | only programs that may be parents have validated lists, though four of them never do; every supported exchange may be a parent, and validated lists are long enough |
| Validation.ProgramsOfInterest | internal/solana/utils.go:36-118 | which programs' swaps are handled and which may be parents |
| DexSwaps.HandleRaydium | internal/solana/dex/raydium.go:7-46 | a swap exactly when the next transfer belongs to the program, without the guard ever rejecting or an index out of bounds; pair second, wallet last, which pays with the leg it authorized |
| DexSwaps.LegOrderDoesNotMatter | internal/solana/dex/raydium_cpmm.go:25-38 | when the wallet authorized exactly one leg, that leg goes out, and exchanging the transfers gives the same swap |
| DexSwaps.HandleRaydiumConcentrated | internal/solana/dex/raydium_concentrated.go:7-42 | the same contract with pair third, wallet first |
| DexSwaps.HandleRaydiumCpmm | internal/solana/dex/raydium_cpmm.go:7-42 | the same contract with pair fourth, wallet first |
| DexSwaps.HandleRaydiumLaunchpad | internal/solana/dex/raydium_launchpad.go:7-42 | the same contract with pair fifth, wallet first |
| DexSwaps.HandlePumpFunAmm | internal/solana/dex/pumpfun_amm.go:7-44 | the same contract with pair first, wallet second |
| DexSwaps.HandleOrca | internal/solana/dex/orca.go:7-43 | a swap exactly when paired; the first leg goes out of its sender; the pair depends on the number of accounts |
| DexSwaps.HandleMeteora | internal/solana/dex/meteora.go:5-34 | a swap exactly when paired; the first leg goes out; the wallet is the eleventh account, which a validated list has |
| DexSwaps.HandlePumpFun | internal/solana/dex/pumpfun.go:85-110 | the cursor moves over a paired transfer in every case; wallet and pair are those of the event and the list, and none for the fee transfer; a swap with a wallet has positive amounts |
| PumpFunEvent.PayloadIsWhatFollows | internal/solana/dex/pumpfun.go:25-32 | a payload is found iff the first match in the text is aligned, and then it is exactly the bytes after those eight |
| PumpFunEvent.OddMatchIsNoEvent | internal/solana/dex/pumpfun.go:26-32 | no payload iff there is no match or the first one is at an odd digit |
| PumpFunEvent.HiddenEvent | internal/solana/dex/pumpfun.go:26-32 | bytes in which an unaligned first match hides an event, for every payload |
| PumpFunEvent.HandlePumpFunSwapData | internal/solana/dex/pumpfun.go:16-83 | the assignments step by step compute the swap of a usable event, else the empty swap |
| PumpFunEvent.SwapNeedsAlignedEvent | internal/solana/dex/pumpfun.go:20-82 | a swap comes out iff an aligned first match is followed by a decodable event with nonzero amounts, and it pays SOL for the token or the reverse |
| PumpFunEvent.SwapOfEvent | internal/solana/dex/pumpfun.go:46-82 | the swap has the event's user, pays SOL for the token on a purchase and the reverse on a sale, in billionths and millionths of the event's integers |
| SwapScan.Scan | internal/solana/swapHandler.go:25-61 | the cursor loop ends within the list and collects the swaps of the emissions |
| SwapScan.LoopBody | internal/solana/swapHandler.go:26-59 | one iteration, branch by branch, with its two skips that do not apply the increment |
| SwapScan.ClaimsAreDisjoint | internal/solana/swapHandler.go:25-61 | the transfers that different emissions are made of exist, are disjoint and in increasing order |
| SwapScan.EmissionsAreAtStops | internal/solana/swapHandler.go:25-61 | an emission is made exactly at the positions where the cursor stops and the body emits |
| SwapScan.StepReads | internal/solana/swapHandler.go:25-61 | what the loop does at every position, both ways: the swap that can be read there, with its source, unless its tokens are the same; else two raw records of a token that is no quote token |
| SwapScan.PassedOverBelongs | internal/solana/swapHandler.go:60 | a transfer the cursor passes over stands right behind a stop and belongs to the same supported program |
| SwapScan.PassedOverIsUsedOrLost | internal/solana/swapHandler.go:30-60 | it is part of an emission iff the transfer before it names a wallet and a pair; otherwise it appears in nothing the scan emits |
| SwapScan.StepOfPair | internal/solana/swapHandler.go:30-60 | the step before it is then a swap of both legs, else a record of the first leg alone, or nothing if that is native |
| SwapScan.FeeHidesSwap | internal/solana/dex/pumpfun.go:92-103 | a native fee transfer in front of a transfer with a usable event hides its swap |
| SwapScan.FeeHidesSale | internal/solana/dex/pumpfun.go:92-103 | a concrete fee and sale to which this applies |
| SwapScan.UnknownSenderLosesLeg | internal/solana/dex/orca.go:22-41 | an Orca pair whose first sender is unknown becomes two records of the first leg, and the second leg appears nowhere |
| SwapNetting.BuildOne | internal/solana/swapHandler.go:66-134 | one swap to one record, branch by branch |
| SwapNetting.RecordExists | internal/solana/swapHandler.go:66-82 | a swap is recorded iff it names a wallet and a token, both amounts parse and neither token is ignored |
| SwapNetting.FiledUnder | internal/solana/swapHandler.go:87-134 | when a record is a purchase, sale, receipt or transfer, both ways, the token it is filed under, and its amounts and context |
| SwapNetting.Build | internal/solana/swapHandler.go:63-144 | after one pass the nested balance map holds, for every wallet and token, the net of the records built |
| SwapNetting.Filter | internal/solana/swapHandler.go:146-155 | exactly the records with a nonzero net and a wallet that is not ignored, in order |
| SwapNetting.HandleSwaps | internal/solana/swapHandler.go:18-158 | the three passes together, the panic on a record of a transaction without signatures, and the first signature, time and block in every record |
| SwapNetting.RecordsMembers | internal/solana/swapHandler.go:63-144 | the records are exactly those of the swaps found by the scan |
| SwapNetting.FinalMembers | internal/solana/swapHandler.go:146-155 | a record survives, as often as it was built, iff the net of its wallet in its token is not zero and the wallet is not ignored |
| SwapNetting.KeptTogether | internal/solana/swapHandler.go:147-150 | of two records of a wallet in a token both survive or neither, each as often as it was built |
| SwapNetting.KeptNet | internal/solana/swapHandler.go:137-150 | dropping zero nets leaves the net of every wallet in every token as it was |
| SwapNetting.NettingConserves | internal/solana/swapHandler.go:137-150 | for every token the survivors sum to what was built |
| SwapNetting.SurvivorsBalance | internal/solana/swapHandler.go:41-150 | the survivors' total of a token is the sum of the emissions' shares, and zero when all are raw transfers between known owners |
| SwapNetting.LoneRecordVanishes | internal/solana/swapHandler.go:137-150 | a record alone under its wallet and token is dropped iff its two amounts are the same number |
| Pipeline.ParsedIsSafe | internal/solana/swapHandler.go:173-184 | every account the handlers read of a parsed transfer resolves when all of the transaction's do, and the repeated validation never rejects a program that is handled |
| Pipeline.SwapsComeFromInner | internal/solana/txParser.go:96-99 | swaps are read off, and the cursor moves over, transfers of inner instructions only |
| Pipeline.ProcessTransaction | internal/solana/txHandler.go:24-29 | a panic iff a log line opens an invocation without a program, a PumpFun data line lacks its space, or something is recorded without a signature; else the records of the parsed transfers and the PumpFun data lines |
| Pipeline.PrintedLogIsSafe | internal/solana/dex/pumpfun.go:112-140 | on a log as the runtime prints it the gathered lines are exactly what PumpFun invocations emitted, and processing panics on no line of it unless one of their messages passes for data |
| Pipeline.RecordsAreStorable | internal/solana/swapHandler.go:36-158 | every record of a parsed transaction has amounts that are not negative, and a purchase or a sale positive ones |
| Pipeline.RecordsCarryContext | internal/solana/swapHandler.go:122-134 | every record of a transaction carries its first signature and its block's time and number |
| Pipeline.LoneSwapIsKept | internal/solana/swapHandler.go:63-157 | a transaction whose scan finds one swap that can be recorded ends with that record, and with nothing iff its amounts are the same number or its wallet is ignored |
| Pipeline.PairIsRecorded | internal/solana/swapHandler.go:18-158 | from two transfers of any such program to the final list: one purchase or sale with the amounts, tokens, wallet, pair and source that the program's rule gives, or nothing exactly in those two cases |
| Pipeline.SaleIsKept | internal/solana/swapHandler.go:93-155 | a sale for an amount that differs from what is sold, by a wallet that is not ignored, ends as one sale with these amounts |
| Pipeline.FiveForOne | internal/solana/dex/raydium_cpmm.go:7-42 | five tokens sold for one SOL on Raydium are stored as a sale of five for one |
| Pipeline.PurchaseVanishes | internal/solana/swapHandler.go:137-150 | a purchase of as many tokens as quote tokens paid, on any program whose swaps take two transfers, is scanned and recorded, and nothing of it is kept |
| Pipeline.OneForOne | internal/solana/dex/raydium_cpmm.go:7-42 | one SOL for one token on Raydium is such a purchase: the final list is empty |
| Pipeline.ReceiptsCollide | internal/db/timescale_repo.go:124 | the receipts of two transfers share a key iff their amounts are equal |
| Pipeline.TransfersShareRow | internal/db/timescale_repo.go:124 | two transfers of equal amounts in one transaction both end in the final list and compete for one row |
| FifoLots.ConsumeConserves | cmd/api/routes/pnl_utils.go:53-72 | in the inner loop sold plus pending is constant, and open lots lose what is sold |
| FifoLots.Conservation | cmd/api/routes/pnl_utils.go:34-74 | open lots plus sold equals bought; sold plus unmatched equals the sells; the remainder is open lots minus unmatched |
| FifoLots.RunTallied | cmd/api/routes/pnl_utils.go:57-68 | sold amount and held time are sums over the recorded matches |
| FifoLots.ConsumeIsOverlap | cmd/api/routes/pnl_utils.go:53-72 | one sell is matched with the overlap of its stretch with the lots under it |
| FifoLots.FifoIsClosedForm | cmd/api/routes/pnl_utils.go:34-74 | the queue refines the closed form; open lots are a suffix of the buys with at most the head reduced |
| FifoLots.MatchedAmountIsOverlap | cmd/api/routes/pnl_utils.go:34-74 | the amount matched between a buy and a sell is the overlap of their intervals on the cumulative line |
| FifoLots.SoldIsCut | cmd/api/routes/pnl_utils.go:61-68 | the sold total is that of the sells, each capped at what was open |
| FifoLots.HeldTimeIsNonNegative | cmd/api/routes/pnl_utils.go:29-68 | after the sort the held time is never negative, and truncation loses less than a nanosecond per match |
| HeldArea.ConsumeArea | cmd/api/routes/pnl_utils.go:53-72 | the exact holding time of one sale is what it takes from each lot, summed over the time in between |
| HeldArea.HeldIsArea | cmd/api/routes/pnl_utils.go:29-74 | the exact holding time of a sorted log is the amount held at each moment that will be sold, summed over time |
| Splits.SplitSell | cmd/api/routes/pnl_utils.go:53-72 | selling a sum at one time is selling its parts one after the other, oversells and empty lots included |
| Splits.SplitInLog | cmd/api/routes/pnl_utils.go:34-74 | a sell of a log may be recorded as two at the same time: after every later entry lots, sold and unmatched amounts and the exact holding time are the same, and the truncated one within a nanosecond |
| TokenProfit.SortedOrderIsUnique | cmd/api/routes/pnl_utils.go:29-31 | with distinct timestamps every sort yields the same log |
| Ties.TiesMatterExactly | cmd/api/routes/pnl_utils.go:29-74 | every sort of a log gives the same sold amount, exact holding time and open amount iff at every time nothing is acquired or no more is asked for than was open before |
| Ties.TruncatedTimeIsClose | cmd/api/routes/pnl_utils.go:29-68 | the holding time the code returns differs between two sorts of such a log by at most a nanosecond per match |
| Ties.SoldTheSame | cmd/api/routes/pnl_utils.go:29-74 | in every sort of such a log the same amount is sold by every moment |
| Ties.OrdersDiffer | cmd/api/routes/pnl_utils.go:29-74 | two sorts that sell different amounts by some moment differ in the end, in the amount or in the holding time |
| TokenProfit.TiesChangeTheResult | cmd/api/routes/pnl_utils.go:29-31 | a purchase and an equal sale at one time are matched in one order and not in the other |
| TokenProfit.CalculateTokenPnL | cmd/api/routes/pnl_utils.go:12-177 | the loop computes totals, sold amount and held time of the sorted log and the figures follow from them; with a remainder, a latest swap of zero amounts is a panic and one with a zero divisor an infinity |
| TokenProfit.OutcomeKinds | cmd/api/routes/pnl_utils.go:88-107 | a panic iff something remains and the latest purchase or sale has two zero amounts, an infinity iff only its divisor is zero, and figures else |
| TokenProfit.StoredRowsHaveFigures | cmd/api/routes/pnl_utils.go:85-117 | on stored rows the outcome is always figures, at a finite latest price; the remainder is worth its amount times paid over received of a latest purchase, received over paid of a latest sale, and nothing without one; what the figures value is not negative |
| TokenProfit.FiguresOfRows | cmd/api/routes/pnl_utils.go:33-51 | whatever order the rows are sorted into, tokens bought and sold and dollars paid and earned are sums over the rows by their actions and amounts |
| TokenProfit.FiguresOfTotals | cmd/api/routes/pnl_utils.go:76-155 | realized, unrealized and total profit, remainder and all three rates as products of those sums and the remainder's value |
| TokenProfit.PriceMissesRemainder | cmd/api/routes/pnl_utils.go:88-108 | the value of the remainder is the same at every dollar price of the quote token |
| TokenProfit.MatchSell | cmd/api/routes/pnl_utils.go:53-72 | the inner loop ends and computes one sell of the matcher |
| TokenProfit.Results | cmd/api/routes/pnl_utils.go:76-155 | realized, unrealized and total profit and rates from the four totals |
| TokenProfit.Percent | cmd/api/routes/pnl_utils.go:128-152 | a rate is its part in percent of the whole, and zero unless the whole is positive |
| TokenProfit.PnLVersusMarkToMarket | cmd/api/routes/pnl_utils.go:76-117 | by how much a partly sold position falls short of its mark-to-market profit |
| TokenProfit.PnLOfLog | cmd/api/routes/pnl_utils.go:34-117 | exactly for which logs reported profit is mark-to-market profit |
| TokenProfit.PartlySoldMisses | cmd/api/routes/pnl_utils.go:76-117 | a log without gain or loss that reports a loss |
| Aggregate.GroupByToken | cmd/api/routes/pnl.go:85-87 | every token gets its own swaps in order |
| Aggregate.OfTokenMembers | cmd/api/routes/pnl.go:85-87 | a token's swaps are exactly those filed under it, each as often as it occurs |
| Aggregate.StepInv | cmd/api/routes/pnl.go:82-167 | every move keeps the totals equal to the shares added so far, each at a price that was an answer for its quote token, however the price moves; each token asks at most once, and the semaphore keeps its bound |
| Aggregate.EveryRunEnds | cmd/api/routes/pnl.go:82-170 | no deadlock and no endless run: at most five moves a goroutine, at most a hundred goroutines at once, and until all have ended one can move |
| PriceOrder.OrderShowsExactly | cmd/api/routes/pnl.go:89-170 | for tokens that may all run at once, every order of the goroutines uses the same prices iff each request would bring every token that counts the same answer; for more tokens a sufficient and a necessary number of requests |
| PriceOrder.AskedAfter | cmd/api/routes/pnl.go:105-117 | for every token and every number of requests that can be made before its own there is a finished run in which it uses that answer |
| PriceOrder.TotalsDoNotDependOnOrder | cmd/api/routes/pnl.go:89-170 | when the answers are the same, each token that counts has added its share once at the price of its quote token, whatever the interleaving |
| PriceOrder.MovingPriceShows | cmd/api/routes/pnl.go:105-146 | two tokens with one purchase each: when the price moves between two requests, two orders end with different bought volumes |
| Aggregate.Finish | cmd/api/routes/pnl.go:172-204 | the report of a finished run, whatever the order and the prices: the rate is the summed profit of tokens with positive buy value in percent of their summed buy value; realized and unrealized profit, their rates, volumes and positions are each the sum of that figure over the tokens added, and the average holding time is that of what they sold |
| Aggregate.TotalsInWords | cmd/api/routes/pnl.go:144-160 | every accumulated total is the sum of one figure over the tokens added; the weighted rates sum up to the profit of those on which something was spent |
| Gaps.FindMissingBlocks | internal/db/timescale_repo.go:45-73 | sorted, disjoint, non-adjacent ranges that cover exactly the unmarked numbers between the least nonzero and the greatest block |
| Gaps.RangesAreUnique | internal/db/timescale_repo.go:61-72 | there is only one such list of ranges |
| Gaps.Backfill.HandleBackFill | internal/solana/backfill.go:33-71 | which blocks of a range are asked for, marked and accepted by the queue, where a fatal answer ends it, and when the current slot is needed |
| Gaps.Backfill.WalkRange | internal/solana/backfill.go:45-68 | the counter loop asks the nodes round robin, marks, and hands over blocks that exist |
| Gaps.Backfill.OneBlock | internal/solana/queue.go:183-227 | a block reaches the queue only if it exists and none of the silent failures happens; it is marked before |
| Gaps.Backfill.FillAll | cmd/backfill/main.go:64-76 | the worker fills the ranges up to the block a node ends the process at, or all of them |
| Gaps.Backfill.Round | cmd/backfill/main.go:39-77 | which missing blocks are asked for, marked and enqueued, none twice, also when the process dies; what the next search finds; which blocks are lost; no range asks for the current slot |
| Gaps.Backfill.Rounds | cmd/backfill/main.go:39-78 | in any number of rounds a marked block is never asked for and never enqueued again |
| Gaps.LoseAll | internal/solana/backfill.go:51-66 | when every block exists and is marked and the queue accepts none, a round loses all blocks of the gaps |
| Gaps.LoseBlock | internal/solana/backfill.go:51-66 | such a round with one block, which is marked, not accepted and never found again |
| Gaps.LoadsAreBalanced | internal/solana/backfill.go:46 | in a range two nodes never differ by more than one request |
| DedupQueue.StepInv | internal/solana/tokenFind.go:96-122 | every claim, enqueue, release, take and completion keeps an address active at most once and the claims right |
| DedupQueue.NoDuplicateWork | internal/solana/tokenFind.go:96-122 | in every run no address is queued twice or worked on by two workers, and the channel keeps its capacity |
| DedupQueue.SeenIsActive | internal/solana/tokenFind.go:107-122 | for tokens the claimed addresses are exactly the active ones; for pairs also those turned away |
| QueueProgress.ServedInOrder | internal/solana/tokenFind.go:99-117 | over every run what was queued and what gets into the channel is what workers start on and what stays queued, in the same order |
| QueueProgress.EverythingIsServed | internal/solana/tokenFind.go:96-122 | from every reachable state of a queue with a worker all comes to rest without another addition: everything that got into the channel has been served, and no claim is left but those of pairs turned away |
| QueueProgress.RunsAreBounded | internal/solana/tokenFind.go:96-122 | without additions no run is longer than the work there is |
| DedupQueue.TurnedAwayForever | internal/solana/pairFind.go:119-127 | a pair turned away once is never queued or looked up again |
| DedupQueue.PairsExactUnlessOverflow | internal/solana/pairFind.go:103-128 | the pair queue's claims are exact iff its channel never overflowed |
| DedupQueue.PairsOverflow | internal/solana/pairFind.go:119-127 | a run that overflows: one address more than the channel holds stays claimed without being active |
| Tlv.ParseMetadataExtension | internal/solana/service.go:172-224 | every answer characterized both ways: the first metadata entry is selected, malformed iff an entry overruns before one, not found iff the entries run out |
| Tlv.WalkEntries | internal/solana/service.go:181-222 | the cursor loop ends and never slices out of bounds |
| Tlv.WalkSkips | internal/solana/service.go:182-221 | the walk passes over every encoded ordinary entry |
| Tlv.SkippedIsEncoded | internal/solana/service.go:182-221 | what the walk passes over, on any bytes, is an encoding of ordinary entries |
| Tlv.DecodeEncode | internal/solana/service.go:183-191 | reading an encoded entry gives it back, whatever follows |
| Tlv.ToExtension | internal/solana/service.go:208-218 | of a repeated key the last value wins |

## Left out

- Connection handling, publishing, prefetch, heartbeat and websocket code; the database driver; HTTP routing and encoding of responses.
- Shutdown of the worker pool: `workerWg.Done` runs twice for each worker, so waiting for the pool is not modelled. A worker that leaves is an event of `Broker`.
- Rounding of floats and of arbitrary-precision floats, and decimal text: amounts are exact reals. The ten digits that the original keeps in PumpFun amounts and balance differences are not modelled.
- Decoding of base58, base64, borsh, zstd and of instruction layouts: decoders are parameters of the model.
- The differences of native balances, which the parser computes and never uses.
- Name, symbol and link of a token whose creation the parser sees, and the updates of token supply, which detached goroutines make.
- Feeding the token and pair queues from the swap handler: `DedupQueue` covers the queues themselves.
- The decoding that turns gathered PumpFun lines into tokens, and storing them.
- A log line that is empty after its program prefix, and program names that contain spaces or keywords: `RuntimeLog` prints neither.
- The dollar price of a quote token and the latest swap of a pair are inputs; printing the symbol of a token, which fails when there is none, is not modelled.
- The counters of buys and sells that goroutines raise without a lock, the number of tokens traded and the win rate of the aggregated response; the text form of its average holding time.
- The other writer of marked blocks, the live listener, which may mark blocks while a backfill round runs.
- What a worker does after a failed reconnect beyond leaving, and scheduling fairness: `FanOut` proves that some goroutine can always move, not that every one does.
- SQL analytics, pagination, wallet filters, price tracking and the handlers that are not wired into the dispatch.
- Account keys sharing storage when the original appends the looked-up addresses to them.
- Instructions.FindAccount: takes the instruction data as decoded, so its bytes and the length checks inside the decoders are not modelled.
- Blocks.TableOfBlocks: covers blocks none of whose transactions makes processing panic; a panic ends the process, which `Broker` has as a crash.
- Pipeline.ProcessTransaction: takes the accounts the handlers look at to resolve; an index past the keys is a panic, or, at the one account whose index a handler compares with the number of keys, a skipped swap.
- PriceOrder.OrderShowsExactly: for more tokens than run at once, which requests can be made depends on the answers to earlier ones, and the condition between the two bounds is not given.
