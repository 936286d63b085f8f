# A verified model of the TON relayer

The project models the hard parts of a relayer between Axelar and TON and proves what they guarantee,
over every input, every interleaving or every history. `dafny verify dfyconfig.toml` checks all of it.

| file | what it models |
|---|---|
| `QueryId.dfy` | the (shift, bitnumber) counter of a highload wallet |
| `QueryIdTable.dfy` | the table of counters with expiry, and the wrapper that advances one row |
| `HighloadContract.dfy` | the wallet contract's replay memory: two buckets that rotate |
| `Locks.dfy` | the wallets' lock keys in Redis |
| `WalletProtocol.dfy` | workers, lock, row and contract together, as one concurrent state machine with a clock |
| `ProtocolBounds.dfy` | how sharp the protocol's guarantees are: the exact lag and gap at which a fresh id can be rejected |
| `Broadcaster.dfy` | taking a wallet, sending with forced retries, giving it back |
| `BroadcastRuns.dfy` | a broadcast as a run of the wallet protocol |
| `Interleavings.dfy` | a send interleaved in any way with the steps of other workers |
| `ForcedRetries.dfy` | when forced retries reach an id the contract accepts |
| `GasCalculator.dfy` | what a trace cost our addresses |
| `TraceParser.dfy` | from a trace to events: sorting, pairing, cost rewriting |
| `Cells.dfy`, `ExecuteMessage.dfy` | byte strings as cell chains; the execute message and its wrapping |
| `Traces.dfy` | the trace table, its pollers and the retry budget, under every interleaving |

The central result is about query ids. In every interleaving of any number of workers, with clock ticks
between any two steps, for every wallet that each of its holders gives back within the 60 seconds of the lock
(a timely run for that wallet; workers on other wallets may overstay): it never has two holders; within an
epoch (from one reset to (0,0) to the next) ids strictly increase; and a replay rejection can only be caused
by a use of the same id in the epoch just before, at most three timeouts ago. The contract forgets an id
strictly after three timeouts and, for some histories, not sooner.

These theorems are about the broadcaster's own code: `BroadcastIsARun` shows that what `Broadcast` does to lock
keys, rows and posts is a run of the protocol, and `InterleavedSend` that a send ends the same however it is
interleaved with other workers.

What the code does not promise:

- Without the 60-second bound exclusion is lost (`OverstayBreaksExclusion`), and with it uniqueness (`OverstayDuplicatesIds`): the key expires under its holder. A late unlock then deletes the next holder's key, whoever owns it, and lets a third worker in beside a holder that is itself in time (`LateUnlockLetsThirdIn`).
- A fresh id is not always accepted. For every timeout, it is accepted in all runs in which its earlier uses are at least `gap` old if and only if `gap` exceeds three timeouts, even if every post is prompt (`SafeGapExact`): the expiry moves only at a reset, so an id can come back sooner.
- Id 0 is not always safe. For every timeout, it is accepted in all runs whose ids 0 are posted at most `lag` seconds after the write of their row if and only if `lag` is 0 (`IdZeroSafeExact`): one second is enough to lose it.
- A lock request whose reply is lost strands the wallet for 60 seconds (`LostReplyStrands`).
- The refund broadcast reports success with an empty hash when its send has failed (`BroadcastRefundMessage`).
- The retry budget is kept exactly if the node reports no trace incomplete more often than it has retries left (`BudgetExact`); over all runs it is safe if and only if a reply names a trace at most once (`BudgetSafeExact`, with the overspending run `NamedTwiceOverspends`).
- `has_next` and `next` disagree at two pairs (`HasNextExact`).
- Subtracting the refund equals dropping the refunded value only if that value leaves our addresses or is zero (`RefundExact`; `RefundWithinUsMisleads` is an input where they differ).

Where comments and code differ the code is followed. The table in the header of
`src/high_load_query_id_db_wrapper.rs` shows a rotation at exactly `t = T`; the rule quoted above it rotates
only strictly after. `TONTrace::from` sets 5 retries, but the insert never binds that field, so a new row
has the column default of 10.

Environment calls are parameters: clocks, database calls and lock requests (delivered, refused, or carried out
with the reply lost), node replies, price conversion and the payload hash. Integers are unbounded; `3 * timeout` is taken to fit 32 bits, Redis, Postgres, the workers and the chain are taken to share one clock, and
the cast of a cost to 64 bits is written out in `Clamped`. A rejected message leaves the contract unchanged,
and a posted message is processed at the moment of its post. A transfer message is taken to hold its body as
first reference, and an action list to refer to the previous list and then to the message.

## Model

| member | source | states |
|---|---|---|
| QueryId.FromShiftAndBitnumber | src/high_load_query_id.rs:42-54 | succeeds exactly on shifts up to 8191 and bit numbers up to 1022, and reports an invalid shift first |
| QueryId.Next | src/high_load_query_id.rs:56-74 | moves exactly one step up in lexicographic rank, and fails exactly at (8191,1020) and (8191,1022), each with its own error |
| QueryId.IdOrder | src/high_load_query_id.rs:80-83 | the 23-bit id is injective and orders pairs as the counter does; only (0,0) has id 0 |
| QueryId.HasNextExact | src/high_load_query_id.rs:76-78 | has_next answers for next everywhere except at (8191,1020) and (8191,1021) |
| QueryId.EpochIsComplete | src/high_load_query_id.rs:56-74 | repeated next from (0,0) visits every pair of rank up to 8380413 exactly once and nothing else |
| QueryIdTable.Table.GetQueryId | src/models/ton_wallet_query_id.rs:37-51 | returns the row while its expiry is not before now, equality included, else (-1,-1) |
| QueryIdTable.Table.UpdateQueryId | src/models/ton_wallet_query_id.rs:53-68 | replaces the digits of an existing row, never its expiry, and never creates a row |
| QueryIdTable.Table.UpsertQueryId | src/models/ton_wallet_query_id.rs:70-96 | creates or replaces the row and sets its expiry |
| QueryIdTable.Next | src/high_load_query_id_db_wrapper.rs:125-184 | the imperative wrapper computes the specified outcome and table, keeps all rows at most (8191,1020) and then never reports NoNextQueryId |
| QueryIdTable.AdvanceExact | src/high_load_query_id_db_wrapper.rs:137-164 | a missing row restarts at id 0; a live row fails exactly at (8191,1020), as ConstructionError; otherwise the id grows, by one rank unforced, by at least 1025 and a shift forced from shifts up to 8189 |
| QueryIdTable.AdvanceRank | src/high_load_query_id_db_wrapper.rs:137-164 | a call on a live row moves exactly one rank up, forced exactly one shift and one rank (1024 ranks), except on the last two shifts, where forced is as unforced |
| QueryIdTable.AdvanceOutOfRange | src/high_load_query_id_db_wrapper.rs:137-164 | on stored digits the wrapper itself never writes: negative digits restart at id 0 or, forced with a readable bit number, go on from shift 2; too large digits are a ConstructionError; (8191,1021) and (8191,1022) are NoNextQueryId |
| QueryIdTable.ExpiryMovesOnlyAtReset | src/high_load_query_id_db_wrapper.rs:166-181 | the id is 0, and the expiry set to three timeouts after the write, exactly when the row was missing or expired at the read; other rows are untouched |
| QueryIdTable.ExhaustedRowIsStuck | src/high_load_query_id_db_wrapper.rs:146-164 | at (8191,1020) every call fails and leaves the table unchanged while the row lives |
| QueryIdTable.UnforcedEpoch | src/high_load_query_id_db_wrapper.rs:146-181 | an unforced epoch issues the pairs of rank 0 to 8380413 in order, 8380414 ids in all, and then only construction errors |
| HighloadContract.RejectionHasCause | src/high_load_query_id_db_wrapper.rs:8-27 | in every chronological history an id rejected now was accepted at most three timeouts ago |
| HighloadContract.LongestMemory | src/high_load_query_id_db_wrapper.rs:8-27 | a history in which an id accepted at 0 is still rejected at exactly three timeouts |
| HighloadContract.SafeDelayIsThreeTimeouts | src/high_load_query_id_db_wrapper.rs:8-27 | waiting a delay makes an id acceptable again in every history if and only if the delay exceeds three timeouts |
| HighloadContract.ThreeIsTheLeastMultiplier | src/high_load_query_id_db_wrapper.rs:89-89 | a row live through m timeouts, end included, is safe for all timeouts iff m is at least 3; resetting at exactly 3 timeouts is unsafe |
| WalletProtocol.StepKeepsInv | src/wallet_manager.rs:124-138 | every step of every worker keeps the invariant of a wallet while the holders of that wallet are timely, whatever holders of other wallets do |
| WalletProtocol.MutualExclusion | src/lock_manager.rs:61-83 | in every reachable state of every timely run a wallet has at most one holder, and its key is in place |
| WalletProtocol.IdsIncreaseWithinEpoch | src/high_load_query_id_db_wrapper.rs:125-184 | in every timely run the ids issued for a wallet strictly increase within an epoch, epochs never go back, and no id exceeds (8191,1020) |
| WalletProtocol.RowMirrorsHistory | src/models/ton_wallet_query_id.rs:37-96 | in every timely run the row holds the id issued last, in range, and expires three timeouts after the last reset |
| WalletProtocol.ResetsAreFarApart | src/high_load_query_id_db_wrapper.rs:166-181 | in every timely run resets of a wallet are more than three timeouts apart |
| WalletProtocol.WrapperCallIsTwoSteps | src/high_load_query_id_db_wrapper.rs:125-184 | a read step and a later write step together are one wrapper call on the shared table |
| WalletProtocol.RejectionComesFromPreviousEpoch | src/high_load_query_id_db_wrapper.rs:146-181 | in every timely run a rejected fresh id was used in the immediately preceding epoch, at most three timeouts ago; for id 0 that use was posted later than its row was written |
| WalletProtocol.AtMostTwicePerWindow | src/models/ton_wallet_query_id.rs:37-96 | any three issues of one id span more than three timeouts |
| ProtocolBounds.FirstEpochNeverRejected | src/high_load_query_id_db_wrapper.rs:146-181 | in every timely run no id of a wallet's first epoch is rejected |
| ProtocolBounds.IdZeroSafeExact | src/high_load_query_id_db_wrapper.rs:146-181 | for every timeout and lag: id 0 is accepted in every reachable state whose earlier ids 0 were posted within the lag of their write if and only if the lag is 0 |
| ProtocolBounds.LateIdZeroRejected | src/broadcaster.rs:88-118 | for every timeout, a timely run in which ids 0 are posted at most one second after their write and the pending id 0 is rejected |
| ProtocolBounds.SafeGapExact | src/high_load_query_id_db_wrapper.rs:8-27 | for every timeout and gap: a pending id whose earlier uses are all at least the gap old is accepted in every reachable state if and only if the gap exceeds three timeouts; the same with prompt posts only |
| ProtocolBounds.PromptReissueRejected | src/high_load_query_id_db_wrapper.rs:166-181 | for every timeout, a timely run with prompt posts only in which an id is rejected exactly three timeouts after its last use |
| ProtocolBounds.OverstayBreaksExclusion | src/lock_manager.rs:75-83 | from any reachable state, a holder that stays until its key expires can be joined by any idle worker |
| ProtocolBounds.LateUnlockLetsThirdIn | src/lock_manager.rs:75-83 | from any reachable state, once a holder has overstayed and another worker came in, the late unlock of the first lets a third in beside the second, both in time |
| ProtocolBounds.OverstayDuplicatesIds | src/lock_manager.rs:61-83 | two overlapping holders are handed the same id at the same moment |
| Locks.LockStore.Lock | src/lock_manager.rs:61-73 | succeeds exactly if the reply arrives and no live key exists; sets a key for 60 seconds if there was none and the request took effect, also if its reply is lost |
| Locks.LockStore.Unlock | src/lock_manager.rs:75-83 | deletes the key whoever set it, unless Redis refuses |
| Broadcaster.Acquire | src/wallet_manager.rs:124-133 | locks the first obtainable wallet and tries none after it; none is returned exactly if none is obtainable; the keys are those the requests made so far leave behind |
| Broadcaster.PassedOverUntouched | src/wallet_manager.rs:124-133 | wallets passed over keep their keys as they were unless a reply was lost |
| Broadcaster.LostReplyStrands | src/lock_manager.rs:61-73 | a free wallet whose lock reply is lost is not taken, yet stays locked for 60 seconds |
| Broadcaster.SendToChain | src/broadcaster.rs:78-144 | the recursion posts the specified ids in order, unforced first and forced on retries, with the specified result and table |
| Broadcaster.SendAnswer | src/broadcaster.rs:78-144 | every post but the last was answered "already executed" and each is the id drawn from the table as the attempts before left it; the result is the hash of an accepted last post, RpcFailed after another failure or with no retry left, or the error that stopped the attempt after the last post |
| Broadcaster.SendIsSafe | src/broadcaster.rs:78-144 | at most 12 posts; while the row's epoch lasts every retry has a larger id, from shifts up to 8189 a larger shift and at least 1025 more, so no id is posted twice |
| Broadcaster.RejectionsUseAllRetries | src/broadcaster.rs:120-140 | from any table in range, a node that always answers "already executed" gets exactly 12 posts, except if the row is live on shift 8191 and fewer ids are left there: then exactly those, and a construction error |
| Broadcaster.Broadcast | src/broadcaster.rs:268-323 | without an obtainable wallet no row changes and nothing is posted; otherwise the first obtainable one is used for the send and released whatever failed, with the send's rows, posts and result |
| Broadcaster.WalletIsGivenBack | src/broadcaster.rs:268-323 | if no lock reply was lost, the only key a broadcast can leave changed is that of its wallet, which is gone once the delete took effect |
| Broadcaster.BroadcastAnswer | src/broadcaster.rs:268-323 | a broadcast reports the hash of its accepted last post, RpcFailed after another failure, and a preparation error exactly if the action failed with a wallet in hand; an error outside the send leaves the rows alone and posts nothing |
| Broadcaster.BroadcastProverMessage | src/broadcaster.rs:158-217 | a message that cannot be decoded takes no wallet; the hash of an accepted send is returned, and a failed send is reported inside a successful result with an empty hash |
| Broadcaster.BroadcastExecuteMessage | src/broadcaster.rs:225-323 | too little gas takes no wallet and is a result, not an error; a message that cannot be built is an error after which the wallet is released; an accepted send returns its hash, a failed one its error inside the result |
| Broadcaster.BroadcastRefundMessage | src/broadcaster.rs:326-410 | too little gas is an error and takes no wallet; a failed send is reported as success with an empty hash |
| BroadcastRuns.AttemptIsARun | src/broadcaster.rs:88-118 | the protocol steps of one attempt change rows as the wrapper call does and issue the id that is posted |
| BroadcastRuns.SendIsARun | src/broadcaster.rs:78-144 | the protocol steps of a whole send leave the rows of the broadcaster's recursion, issue its posts in order and at most one id more, and touch no lock and no other wallet |
| BroadcastRuns.BroadcastIsARun | src/broadcaster.rs:268-323 | a broadcast that gets a wallet is a protocol run of lock attempts, reads, writes, posts and the unlock, with the same locks, rows and posts; for every wallet held in time until the work is done, it leads from a reachable state to a reachable one |
| BroadcastRuns.NoWalletIsARun | src/wallet_manager.rs:124-133 | a broadcast without a wallet is a protocol run of lock attempts with the same locks and nothing else changed |
| BroadcastRuns.PostedIdsAreNew | src/broadcaster.rs:78-144 | every id a timely broadcast posts is larger than every id issued before in the same epoch by any worker |
| Interleavings.OwnStepsDecide | src/wallet_manager.rs:124-138 | in every timely run, what becomes of a held wallet, its row and its holder is decided by the holder's own steps and the clock |
| Interleavings.InterleavedSend | src/broadcaster.rs:78-144 | in every timely run in which the steps of a send, ticks split as one likes, are interleaved with any steps of other workers, the row ends as the recursion leaves it and the posted ids are issued in order, with at most one id more |
| ForcedRetries.HigherShiftAccepted | src/high_load_query_id_db_wrapper.rs:137-144 | in every timely run a pending id on a higher shift than any id used in the epoch before is accepted |
| ForcedRetries.SendSucceeds | src/broadcaster.rs:120-140 | without faults, and with a node that answers "already executed" exactly if the contract rejects, a send whose first id lies at most 10 shifts below the highest shift used in the epoch before, that being at most 8189, succeeds, with at most two posts more than that distance |
| GasCalculator.AddCost | src/gas_calculator.rs:21-23 | on a present key the key set stays and the sum of balances moves by the cost |
| GasCalculator.Cost | src/gas_calculator.rs:82-113 | the nested map-updating loops compute our fees plus value leaving the set minus value entering it |
| GasCalculator.CostAdditiveInAddresses | src/gas_calculator.rs:21-43 | for disjoint address sets the cost of the union is the sum of the costs, for every trace |
| GasCalculator.ClosedCostIsFees | src/gas_calculator.rs:82-113 | a set covering every account and destination pays exactly all total and forward fees |
| GasCalculator.CostsShareTheFees | src/gas_calculator.rs:82-113 | our cost and everybody else's add up to the fees |
| GasCalculator.CostAdditiveInTraces | src/gas_calculator.rs:90-109 | the cost of concatenated traces is the sum of their costs |
| GasCalculator.CostIgnoresOrder | src/gas_calculator.rs:90-109 | permuting transactions does not change the cost |
| GasCalculator.CostIgnoresDuplicates | src/gas_calculator.rs:83-88 | repeating or reordering configured addresses does not change the cost |
| GasCalculator.OneMessageCosts | src/gas_calculator.rs:82-113 | in numbers: one more transaction of ours adds its fee and its forward fee, and a value n leaving our addresses adds n, one entering them takes n off |
| GasCalculator.UnreadableCostsNothing | src/gas_calculator.rs:13-19 | absent or unreadable amounts count as zero, and a message without destination moves no value |
| GasCalculator.CalcMessageGas | src/gas_calculator.rs:115-118 | a non-positive cost is reported as 0, a positive one as its 64-bit value |
| GasCalculator.CalcMessageGasNativeGasRefunded | src/gas_calculator.rs:57-80 | 0 without a third transaction with an out message; if that message leaves our addresses, the cost of the trace with its value set to zero |
| GasCalculator.RefundExact | src/gas_calculator.rs:57-80 | cost minus refund is the cost without the refunded value if and only if the value left our addresses or was zero |
| GasCalculator.RefundWithinUsMisleads | src/gas_calculator.rs:57-80 | an input on which cost minus refund is not the cost without the refunded value |
| TraceParser.FirstMatchExact | src/transaction_parser/parser.rs:250-381 | the first parser type that does not pass a transaction over decides alone: the error of its match, of its parse or, for the two payment types, of its key, else its parser; if all pass, the transaction is skipped |
| TraceParser.AttemptsInOrder | src/transaction_parser/parser.rs:250-381 | the thirteen parser types by name, in the order in which they are tried |
| TraceParser.TryParsers | src/transaction_parser/parser.rs:250-381 | the attempts in order give the answer of the first type that does not pass the transaction over |
| TraceParser.RecognizedExact | src/transaction_parser/parser.rs:250-381 | sorting succeeds exactly if every transaction is answered, and otherwise reports the error of the first that fails |
| TraceParser.RecognizedInOrder | src/transaction_parser/parser.rs:250-381 | the parser of a transaction stands behind those of the transactions before it |
| TraceParser.KindsInBuckets | src/transaction_parser/parser.rs:250-381 | by type: calls, the four ITS types and the two payment types go to their own buckets, every other type and the insufficient-gas parser to the plain one, and nothing else is there |
| TraceParser.BucketsPartition | src/transaction_parser/parser.rs:250-381 | every recognised parser stands in its own bucket behind the earlier ones of that bucket, and the four buckets together hold each parser once |
| TraceParser.CreateParsers | src/transaction_parser/parser.rs:226-384 | the loop fills the buckets, the payment map and the counter from the recognised parsers, the insufficient-gas parser first, or reports the first error met |
| TraceParser.LastPaymentWins | src/transaction_parser/parser.rs:287-313 | the payment kept under a key is the last one recorded under it, and keys without payment are absent |
| TraceParser.PairCredits | src/transaction_parser/parser.rs:115-126 | the loop that empties the payment map yields the declarative pairing, succeeds exactly if every needed answer is there, otherwise reports the error of the first call that fails, and leaves the payments no call asked for |
| TraceParser.CreditFollowsItsCall | src/transaction_parser/parser.rs:115-126 | the first call with a key, and only it, is immediately followed by one event, made from the payment under that key |
| TraceParser.PairedLength | src/transaction_parser/parser.rs:115-126 | the pairing has one event per call and exactly one credit per key shared by calls and payments, so no payment is credited twice |
| TraceParser.PairIts | src/transaction_parser/parser.rs:128-140 | the i-th ITS event is made from the i-th call's message id; otherwise the first ITS parser that fails decides the error; with all answers there, fails with ITSWithoutPair exactly if there are more ITS parsers than calls |
| TraceParser.Assemble | src/transaction_parser/parser.rs:115-145 | on success the events are pairing, ITS and plain events in parser order, in number calls plus shared keys plus ITS plus other parsers; otherwise the first of the three loops that fails gives the error |
| TraceParser.AddGasUsedAndConvert | src/transaction_parser/parser.rs:160-204 | in place: an execution costs the total, a refund the refund figure, an approval the quotient by the number of approvals, a token credit becomes its converted amount without token, every other event stays; fails exactly if some token credit has an unreadable amount or no conversion |
| TraceParser.RewriteIsIdempotent | src/transaction_parser/parser.rs:167-201 | after a pass no credit names a token, and a second pass changes nothing |
| TraceParser.CounterCountsApprovals | src/transaction_parser/parser.rs:226-384 | the counter of create_parsers is the number of approval events the trace produces |
| TraceParser.IdsAreCarried | src/transaction_parser/parser.rs:115-140 | on the final events, the event behind a credited call is a gas credit without token whose id is that call's message id, and the i-th ITS event is the ITS event of the i-th call's message id |
| TraceParser.ParseTrace | src/transaction_parser/parser.rs:66-156 | on success the events are the assembled ones rewritten, every execution costs the clamped flow of the trace and every refund the refund figure, credits and ITS events carry their call's message id, and approval costs sum to at most what the trace cost our addresses and, with at least one approval, fall short by less than their number; errors are those of the sorting, then of the first assembly loop that fails, then of the conversion; if every parser answers, ITSWithoutPair is reported exactly when ITS parsers outnumber calls |
| Cells.BufferToCell | src/boc/buffer_to_cell.rs:9-36 | never fails, builds the chain of the bytes within the cell limits, 96 bytes in every cell but the last, and the chain reads back as the bytes |
| Cells.CellToBuffer | src/boc/cell_to.rs:44-67 | for any cell, returns its whole bytes, at most 96, most significant bit first, and then those of its first reference |
| Cells.ChainSplitsAt96 | src/boc/buffer_to_cell.rs:9-32 | a cell of a chain holds 96 bytes, eight bits each, and refers to the chain of the rest; the last holds what is left |
| Cells.BitAt | src/boc/buffer_to_cell.rs:9-32 | numbers are stored most significant bit first |
| Cells.ChainRoundTrip | src/boc/cell_to.rs:44-67 | every byte string, empty and zero bytes included, is read back as written |
| Cells.ChainWithinLimits | src/boc/buffer_to_cell.rs:9-32 | every cell of a chain has at most 1023 bits and 4 references |
| Cells.RewriteExact | src/boc/buffer_to_cell.rs:9-36 | writing what was read from a cell gives the cell back if and only if it has the writer's own form |
| ExecuteMessage.ToCell | src/boc/relayer_execute_message.rs:73-132 | fails exactly on a payload that is not hex; otherwise builds a tree within the cell limits, for all string lengths, in which op code 8, relayer address, message id, source chain and address, payload hash, payload, destination address and chain each stand, and read back, in their place |
| ExecuteMessage.MessageHoldsItsFields | src/boc/relayer_execute_message.rs:89-131 | every field of a message can be read from its place in the tree |
| ExecuteMessage.HexDecode | src/boc/relayer_execute_message.rs:82-83 | succeeds exactly on an even number of hex digits |
| ExecuteMessage.HexBytes | src/boc/relayer_execute_message.rs:82-83 | byte i of the decoded payload is 16 times digit 2i plus digit 2i+1 |
| ExecuteMessage.Utf8Exact | src/boc/cell_to.rs:41-41 | the strings accepted are exactly the encodings of sequences of Unicode scalar values, as in section 3 of RFC 3629 |
| ExecuteMessage.InternalTransferBody | src/ton_wallet_high_load_v3.rs:94-114 | builds 96 bits that read back as op code 0xae42e5a4 and the query id, and the action list as only reference |
| ExecuteMessage.OutListFields | src/out_action.rs:49-52 | each action of the list has the send tag and mode 2, the list before it and its own message |
| ExecuteMessage.FromCell | src/boc/relayer_execute_wrapped.rs:36-75 | for any cell, the cursor takes the references of the specified walk, with its result and its error |
| ExecuteMessage.WalkExact | src/boc/relayer_execute_wrapped.rs:36-75 | the walk succeeds exactly if the references on its path exist and both strings are UTF-8, and returns the strings at the first two references of the message |
| ExecuteMessage.WrappedRoundTrip | src/boc/relayer_execute_wrapped.rs:36-75 | the walk recovers message id and source chain from any wrapped execute message |
| ExecuteMessage.SendAndRead | src/out_action.rs:28-53 | built, wrapped as the only action, put in the transfer body and walked, a message with a hex payload returns its own id and chain |
| Traces.TraceTable.UpsertAndReturnIfChanged | src/models/ton_trace.rs:82-111 | stores the version, returns the row exactly if a compared column changed, gives new rows 10 retries and never touches old ones' |
| Traces.TraceTable.FetchRetry | src/models/ton_trace.rs:115-126 | only incomplete rows with retries left, each once, up to the limit, never changed ones first and then the longest unchanged; with room left all of them, and none left out that should come before one fetched |
| Traces.TraceTable.DecreaseRetry | src/models/ton_trace.rs:128-135 | takes one retry from the row, if it exists |
| Traces.TONSubscriber.PollAccount | src/subscriber.rs:86-133 | stores all traces in order and returns the complete ones its upserts changed; a failed upsert loses the output; the cursor moves to the largest end |
| Traces.PollRetries | src/retry_subscriber.rs:54-115 | for any reply of the node, spends a retry per incomplete trace, upserts the others and outputs exactly the complete ones that changed; a reply that names requested traces at most once keeps every budget between 0 and 10 |
| Traces.BudgetExact | src/retry_subscriber.rs:82-96 | for any reply, budgets stay between 0 and 10 if and only if no trace is found incomplete more often than it has retries |
| Traces.PushedOncePerCompleteChange | src/models/ton_trace.rs:82-111 | in every interleaving a trace is pushed exactly once per complete version that differs from the version applied before it |
| Traces.OutputAtMostOnce | src/subscriber.rs:112-132 | incomplete versions followed by one fixed complete version give at most one output by all pollers together, and exactly one once that version is applied and every poll has finished without failing |
| Traces.BudgetIsConserved | src/retry_subscriber.rs:82-96 | in every interleaving, whatever the replies name, retries left and retries spent on a row add up to 10 |
| Traces.NamedOnceKeepsBudget | src/retry_subscriber.rs:60-96 | in every interleaving in which each reply names only traces asked for, each at most once as still incomplete, retries stay between 0 and 10 and a trace is found incomplete at most 10 times |
| Traces.BudgetSafeExact | src/retry_subscriber.rs:60-96 | over all interleavings whose replies name a trace at most m times per round, no budget goes below 0 if and only if m is at most 1 |
| Traces.NamedTwiceOverspends | src/models/ton_trace.rs:128-135 | a run in which a reply names a trace twice and its retries end at -1 |
| Traces.UninterruptedPoll | src/retry_subscriber.rs:82-114 | a poll nobody interrupts is a run of the interleaving model with the same table and the same output: what the poll method returns if it finishes, nothing if a call fails |
| Traces.PollEnds | src/subscriber.rs:112-132 | a poll that finishes outputs exactly what it pushed, one that is cut short outputs nothing, and neither leaves anything pending |

## Left out

- HTTP client, Redis and Postgres connections, queues, tracing, binaries and configuration: I/O.
- BoC bytes, base64, signatures, message headers and the external message around the transfer body: internals of the TON library.
- The other log decoders and the fields of single events: straight-line reads; a parser is modelled by what its calls answer.
- Price conversion, gas estimates, account checks and refunds through the refund manager: unseen library arithmetic or one-line code.
- The contract's checks of signature, creation time and timeout field: not in this repository.
- Delayed delivery of a posted message: the contract processes it at the post.
- BroadcastRuns.BroadcastIsARun: for a broadcast nobody interrupts, while `InterleavedSend` covers the send alone under interruption; the clock readings of the broadcast are taken to be in order.
- ForcedRetries.SendSucceeds: for a send nobody interrupts and an environment without faults.
- TraceParser.CreateParsers: the chain of thirteen attempts is a loop over a list of parser types in the same order.
- Traces.TraceTable.FetchRetry: the times of last change are an input; that an upsert sets them and a decrement does not is not modelled.
- The map of retry counts in the retry poller: used only for log lines.
- ExecuteMessage.InternalTransferBody: the panic above 254 actions is a precondition.
- Cursor paging of the account pollers: which traces the node returns is an input.
