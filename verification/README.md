# Abakos: a verification model of the node and its mining layer

This project models five parts of the repository and proves what they promise. Each part is written in the form
its source has: objects with fields that their methods update, loops over buffers, step relations where
goroutines or connections interleave. The specification functions the methods are proved against carry the laws.

**The block state machine of `BaseApp`.** One committed multistore, its uncommitted working copy, the throw-away
branches for checks, proposals and the block, and the optimistic-execution record. Stores are maps, a branch is
the set of dirty entries over its parent, and every handler of the application is an arbitrary function that may
also panic. `RunTx` is one transaction run, `BlockMachine` one ABCI call, `BlockMeaning` what a block does in
terms of the application's own hooks, `BlockRuns` the reduction of whole runs to "apply each decided block to
the last committed store", `StaleRun` and `StaleRuns` what a stale optimistic result does to a run,
`BaseAppObject` the object itself. A legal run keeps CometBFT's order (genesis; then per height proposals and
vote extensions, one FinalizeBlock, one Commit; checks and simulations at any point), and a block hash names one
block.

**Proposals and vote extensions** (`Selection`, `SelectionLaws`, `Greedy`, `Agreement`, `StatefulAgreement`,
`AgreementRuns`, `VoteExtensions`). The budgeted selector, the per-signer sequence map and the stateful verifier
of `PrepareProposalHandler`; their agreement with `ProcessProposalHandler`, for any verifier that accepts only
what replay protection accepts, for verifiers that also refuse by state, such as one that deducts fees, and then
for verification by `runTx` itself; the quorum arithmetic on 64-bit integers.

**The protobuf wire codec** (`Varint`, `Wire`, `Parser`, `Messages`, `Marshal`, `TxResponses`,
`MarshalResponse`, `WireValues`, `Framing`). The printer that fills a buffer from right to left, the
hand-unrolled parser, unknown fields with nested groups, and the length-prefixed framing, for the tower
Attribute, StringEvent, ABCIMessageLog, TxResponse. The formats are those of Protocol Buffers Encoding, sections
"Base 128 Varints", "Last One Wins" and "Groups".

**The pub/sub bus** (`Bus`, `BusProgress`, `BusLoops`). A tree of goroutines joined by rendezvous channels, as a
step relation whose history is the log of what was published at the root.

**Share accounting and payouts.** The request/answer protocol of the stratum proxy (`UpstreamIdMap`, `Sessions`,
`SessionLaws`, `SessionCompleteness`, `MinerSessions`), its pruned log of accepted shares (`ShareLog`), the
BIP-173 addresses of proxy and agent (`Regrouping`, `Bech32`, `AddressLiterals`), the inflow scanner (`Inflow`,
`InterruptedScan`) and the payment split and pots (`Payout`). Money floats are exact rationals (`Money`).

## Where the code differs from what it says

- `Abort` of the optimistic execution (`cosmos-sdk/baseapp/oe/optimistic_execution.go:146-154`) stops the run
  but keeps its request, its result and the "initialized" mark, while `cosmos-sdk/baseapp/abci.go:496-500`
  gives the branch away. A later FinalizeBlock for the same hash then takes the old result and writes the
  empty branch: the decided block is lost. `DecidedBlockIsLost` is such a legal run,
  `StaleResultDropsTheBlock` says what happens in general, and `FaithfulExactlyWhenNotStale` gives the exact
  condition. `RunsReduceToDecidedBlocks` is the refinement of runs that take no stale result; `EveryRunReduces`
  is that of all legal runs, in which a block answered with a stale result contributes nothing.
- "What Prepare returns, Process accepts" (`cosmos-sdk/baseapp/abci_utils.go:244-256`) holds where verification
  is replay protection (`AnteAloneAgrees`), and where it also deducts fees (`FeesAgree`, `RunsWithFeesAgree`). It
  fails in two ways. `runTx` keeps the ante handler's writes when the post handler, the reading of the messages or
  the marshalling of the responses fails afterwards: Prepare drops such a transaction, keeps its sequence, and can
  then select the signer's next one, which Process refuses (`ARefusingPostHandlerSplitsTheHandlers`). And Prepare
  may select what only a dropped transaction's write made acceptable (`ADroppedWriteSplitsTheHandlers`).
  `AgreementExactly` and `RunsAgreeExactly` give the condition: every signer's first selected transaction carries
  the committed sequence, and Process refuses none that replay protection accepts. `CoveredRefusalsAgree` says which
  refusals by state never do.
- `ValidateVoteExtensions` doubles the total power in an int64. Below 2^62 the two-thirds rule is exact; from
  there on, up to a total of 2^63 - 2, the required power is not positive and any extended commit with consistent,
  fine votes passes; at a total of 2^63 - 1 a power of 1 is required (`BeyondTheBoundPowerIsNotChecked`). One
  absent validator is enough (`AbsentValidatorIsEnough`).
- `GetBlockRetentionHeight` takes a window of exactly `commitHeight` blocks for one that is not set
  (`cosmos-sdk/baseapp/abci.go:1352-1368`); the contract and `EvidenceBoundary` say so.
- A credit goes to the address in force at the answer. On the GPU path a session may authorize a second address,
  so that is the submitter's address if and only if no login handled in between named another
  (`CreditGoesToSubmitterExactlyWhen`); `GpuAddressCanChange` is a trace where one did. On the CPU path there is one
  address per session.
- Not every miner request goes upstream under a fresh id of the proxy (`pool-proxy/proxy.py:187-194`): a message
  without a method keeps the miner's id and an unparsable line goes out as it is. `WireIdIsFreshExactlyWithMethod`
  is exact, `AMethodlessIdCanCollide` an input where such an id equals a waiting one.
- A provider's share does not always carry forward (`provider-agent/agent.py:714-716`). It is dropped when the
  payment raises and, before that, when the price is not positive or the host part rounds to 0
  (`provider-agent/agent.py:701-707`). `BookedExactlyWhenItGoesThrough` and `OtherwiseNothingChanges` are exact for
  all inputs; `ARaisedShareIsDropped` and `ASmallShareIsDropped` are inputs of both kinds.
- `bech32_to_evm` drops the checksum without looking at it, and a 33rd data symbol as well: behind the last '1'
  any 38 or 39 symbols are read (`AcceptedExactlyByLength`, `OnlyFirst32Matter`). An accepted string is the printed
  address of the account read if and only if it has 38 symbols and its checksum verifies
  (`PrintedExactlyWhenVerified`); `WrongChecksumIsRead` and `AnUnprintedStringIsRead` are strings that are not.
- The inflow scanner books a transfer twice when it was booked by a scan that raised, its key is then dropped from
  the 500-key ring by a scan whose window ends below it, and a later scan reaches it. That needs a reported head
  that goes back. `DoubledExactlyWhenLost` is exact, `ATransferIsBookedTwice` such a run; without a raise, or with a
  head that never goes back, the sum is exact (`CleanRunIsExact`, `SteadyHeadLosesNothing`).
- `UnmarshalLengthPrefixed` accepts prefixes that are longer than needed (`AcceptedIffFramed`).
- The comment on the bus says events are sent to subscribers asynchronously; in fact the parent waits for each
  subscriber, one at a time, to take the event. `NeverStuck` shows that this cannot deadlock, and
  `InternalStepsRunOut` that it comes to an end.

## Model

| member | source | states |
|---|---|---|
| Store.ViewOfWrite | cosmos-sdk/baseapp/baseapp.go:708-722 | writing a cache branch into its parent and reading the parent is reading the branch |
| Store.ReadThrough | cosmos-sdk/baseapp/baseapp.go:708-722 | key by key: a branch reads as what was put into it, as nothing where it deleted, and as its parent elsewhere |
| Gas.ConsumedExactly | cosmos-sdk/baseapp/baseapp.go:870-890 | consuming records the sum, as far as 64 bits go, and panics exactly when it is above the limit or past 64 bits; what counts towards the limit is the smaller of both |
| Gas.ClosedExactlyWhen | cosmos-sdk/baseapp/baseapp.go:854-857 | the gate is closed exactly when not even one unit can be consumed |
| RunTxLaws.FinalizeIsAtomic | cosmos-sdk/baseapp/baseapp.go:845-1027 | in finalize mode the branch afterwards reads as exactly one of unchanged, ante writes, or ante plus message and post writes; the first exactly when the ante handler is not reached or refuses, the last exactly when the run completes, for every error return and panic |
| RunTxLaws.CompletedMeansEverythingSucceeded | cosmos-sdk/baseapp/baseapp.go:959-1027 | past the ante handler a run completes if and only if the mempool removal, every message in turn, the marshalled responses, the post handler and the block-gas charge all succeed |
| RunTxLaws.SuccessHasAChain | cosmos-sdk/baseapp/baseapp.go:1034-1097 | `runMsgs` succeeds only along a chain of branches in which each message saw exactly the writes of those before it |
| RunTxLaws.ChainIsTheRun | cosmos-sdk/baseapp/baseapp.go:1034-1097 | every such chain is the run, with its writes and gas meter |
| RunTxLaws.TheNextMessageDecides | cosmos-sdk/baseapp/baseapp.go:1034-1097 | behind any chain of accepting messages the next one decides: a panic ends the run with the chain's writes and that message's gas, a failure ends it |
| RunTxLaws.PostHandlerIsAsked | cosmos-sdk/baseapp/baseapp.go:973-1006 | the post handler is asked unless a message panicked, on the messages' branch and with their verdict, and its own panic or refusal ends the run |
| RunTxLaws.KeepsAnteIffReached | cosmos-sdk/baseapp/baseapp.go:913-957 | a run keeps something exactly when the ante handler accepted, and then the ante writes are among it |
| RunTxLaws.OtherModesKeepNoMessageWrites | cosmos-sdk/baseapp/baseapp.go:677-704 | simulation leaves the check branch as it was; checks and proposals keep ante writes only; none charges block gas |
| RunTxLaws.CompletedOutsideABlock | cosmos-sdk/baseapp/baseapp.go:957-1027 | a check, simulation or proposal run completes exactly when what follows the ante handler succeeds, and of these only a simulation executes messages, all of which must answer ok in turn |
| RunTxLaws.EarlyStopsAreCharged | cosmos-sdk/baseapp/baseapp.go:860-957 | what a finalized run is charged that stops before or in its ante handler: nothing, or what the ante handler used |
| RunTxLaws.GateOrCharge | cosmos-sdk/baseapp/baseapp.go:854-857 | a finalized run stops for lack of block gas exactly when the gate finds the meter out of gas, and completes only past a charge that does not panic |
| RunTxLaws.ChargedExactlyOnce | cosmos-sdk/baseapp/baseapp.go:854-891 | each finalized run past the out-of-gas gate charges the block meter exactly once on every path, and a completed run stays within the limit |
| BlockGas.OneTransaction | cosmos-sdk/baseapp/baseapp.go:1012-1018 | one delivered transaction never lowers the meter or moves its limit, and keeps message writes only within the limit |
| BlockGas.KeptGasWithinLimit | cosmos-sdk/baseapp/abci.go:792-829 | over any rest of a block, the gas of transactions whose message writes were kept is at most what the meter has left |
| BlockGas.BlockWithinItsLimit | cosmos-sdk/baseapp/abci.go:792-829 | from the meter set after beginBlock, the kept gas of a whole block never exceeds the block limit |
| BlockRuns.PhasesFromIsBlock | cosmos-sdk/baseapp/abci.go:705-857 | executing preBlock, beginBlock, the transactions and endBlock step by step on a branch ends where applying the block to the base store ends, or both fail |
| BlockMeaning.ABlockIsItsHooksAndTransactions | cosmos-sdk/baseapp/abci.go:705-857 | a block applies to a store, with a given result, if and only if in order the pre-block hook with a usable meter, the begin hook with a usable meter, every transaction in finalize mode under the block's header, and the end hook on what those left go through and leave that result; over the application's own functions |
| BlockMeaning.ExecutionIsItsHooksAndTransactions | cosmos-sdk/baseapp/abci.go:705-909 | FinalizeBlock, executing a block itself, answers exactly when the block is admissible and executes in that sense, and its working copy is the result |
| BlockRuns.CancelledRunNeverSucceeds | cosmos-sdk/baseapp/abci.go:781-846 | an optimistic run that is cancelled before it has a result never yields one |
| BlockRuns.CancelIsSeenAfter | cosmos-sdk/baseapp/abci.go:763-790 | the cancel signal is seen after every step that succeeds, except the pre-block hook |
| BlockRuns.FinalizeIsFaithful | cosmos-sdk/baseapp/abci.go:869-909 | FinalizeBlock succeeds exactly when the decided block applies to the last committed store, has then run each of its steps once in order, and left that store in the working copy, unless it takes a stale result |
| BlockRuns.StepStandsFor | cosmos-sdk/baseapp/abci.go:390-552 | every legal call either does to the chain what genesis, a decided block or a commit does, or leaves it as it was |
| BlockRuns.NoiseIsInvisible | cosmos-sdk/baseapp/abci.go:340-375 | checks, simulations, proposals, vote extensions and optimistic steps can be left out of a legal run of the machine: what remains is a legal run from the empty node to the same committed store and height |
| BlockRuns.RunsReduceToDecidedBlocks | cosmos-sdk/baseapp/abci.go:936-1002 | after any legal run without a stale result the committed store is the genesis store with the decided blocks applied in order, at consecutive heights from the initial one |
| BlockRuns.StaleResultDropsTheBlock | cosmos-sdk/baseapp/oe/optimistic_execution.go:121-160 | taking a stale good result leaves the store as it was with none of the block's steps run; a stale error ends the run |
| BlockRuns.FaithfulExactlyWhenNotStale | cosmos-sdk/baseapp/abci.go:882-900 | the exact condition under which FinalizeBlock is faithful |
| StaleRun.DecidedBlockIsLost | cosmos-sdk/baseapp/abci.go:496-500 | a concrete legal run in which FinalizeBlock and Commit succeed and the block's write is missing |
| StaleRuns.EveryRunReduces | cosmos-sdk/baseapp/abci.go:869-1002 | after every legal run, stale results included, the committed store is the genesis store with the executed blocks of the ledger applied in order, each at the height of its place; blocks answered with a stale result contribute nothing |
| StaleRuns.NothingStaleAllExecuted | cosmos-sdk/baseapp/abci.go:882-900 | when no FinalizeBlock of a run takes a stale result, every block of its ledger was executed |
| BaseAppObject.BaseApp.RunMsgs | cosmos-sdk/baseapp/baseapp.go:1034-1097 | the message loop leaves the branch, meter and verdict of the specification the chain laws are about |
| BaseAppObject.BaseApp.RunTx | cosmos-sdk/baseapp/baseapp.go:845-1027 | one run changes the object by what the run keeps and charges, nothing else, in every mode |
| BaseAppObject.BaseApp.PhaseStep | cosmos-sdk/baseapp/abci.go:763-846 | one step of a block extends the finalize branch by its writes, meter and record, or fails and leaves it |
| BaseAppObject.BaseApp.ExecuteBlock | cosmos-sdk/baseapp/abci.go:705-857 | a block executed in FinalizeBlock moves the object as the machine the refinement is about |
| BaseAppObject.BaseApp.GoroutineStep | cosmos-sdk/baseapp/oe/optimistic_execution.go:84-119 | one step of the optimistic run, with the cancel signal looked at after every step but the first |
| BaseAppObject.BaseApp.Abort | cosmos-sdk/baseapp/oe/optimistic_execution.go:146-154 | the run has a result afterwards, and request and result stay on record |
| BaseAppObject.BaseApp.AbortIfNeeded | cosmos-sdk/baseapp/oe/optimistic_execution.go:123-144 | the cancel signal is raised exactly when the hash differs or the test switch is set |
| BaseAppObject.BaseApp.Execute | cosmos-sdk/baseapp/oe/optimistic_execution.go:85-119 | a new run of the given block begins at its first step, without a result |
| BaseAppObject.BaseApp.InitChainCall | cosmos-sdk/baseapp/abci.go:39-135 | genesis writes wait in the finalize branch; the initial height is set; check state is fresh |
| BaseAppObject.BaseApp.CheckTxCall | cosmos-sdk/baseapp/abci.go:340-375 | only the check branch changes, by what a run on it keeps, and the answer is whether that run completed |
| BaseAppObject.BaseApp.SimulateCall | cosmos-sdk/baseapp/baseapp.go:677-704 | nothing changes, and the answer is whether the simulated run completed |
| BaseAppObject.BaseApp.PrepareProposalCall | cosmos-sdk/baseapp/abci.go:390-451 | only the prepare branch changes, over the finalize branch at the initial height |
| BaseAppObject.PrepareBranchReads | cosmos-sdk/baseapp/abci.go:390-451 | the prepare branch reads as the handler's writes on the last committed store, at the initial height on the waiting genesis writes |
| BaseAppObject.BaseApp.ProcessProposalCall | cosmos-sdk/baseapp/abci.go:468-553 | a new round past the initial height stops the optimistic run and takes a fresh finalize branch; acceptance starts the next run |
| BaseAppObject.ProcessBranchReads | cosmos-sdk/baseapp/abci.go:468-553 | the same for the process branch |
| BaseAppObject.ProcessProposalTurnsOver | cosmos-sdk/baseapp/abci.go:496-550 | what becomes of the finalize branch and of the optimistic run, and when the next one starts |
| BaseAppObject.BaseApp.ExtendVoteCall | cosmos-sdk/baseapp/abci.go:564-629 | nothing changes |
| BaseAppObject.BaseApp.FinalizeBlockCall | cosmos-sdk/baseapp/abci.go:869-909 | the optimistic result is taken when its hash matches and it was not aborted here, otherwise the block runs on a fresh branch |
| BaseAppObject.BaseApp.CommitCall | cosmos-sdk/baseapp/abci.go:936-984 | the working copy is committed at the expected height, check state is reset, the finalize branch is dropped with whatever the precommitter wrote |
| Retention.GetBlockRetentionHeight | cosmos-sdk/baseapp/abci.go:1321-1376 | the result is 0 or the least non-zero height the enabled windows leave, positive exactly when no window is longer than the chain, never above the local minimum's, and above another window's only when that window equals `commitHeight` |
| Retention.EvidenceBoundary | cosmos-sdk/baseapp/abci.go:1352-1368 | the boundary occurs: an evidence window of 10 at height 10 does not hold pruning back |
| Selection.DefaultTxSelector.SelectTxForProposal | cosmos-sdk/baseapp/abci_utils.go:505-533 | a transaction is taken exactly when both 64-bit sums stay within the limits; the answer is yes exactly when the byte sum has reached its limit or the gas sum a positive one |
| Selection.NoteSenders | cosmos-sdk/baseapp/abci_utils.go:345-363 | the sender map after a verified transaction, independent of the order of its senders |
| Selection.Callback | cosmos-sdk/baseapp/abci_utils.go:294-367 | one turn of the mempool iteration, with each of its early returns, moves the locals it closes over as the laws' handler |
| Selection.RemoveInvalid | cosmos-sdk/baseapp/abci_utils.go:374-379 | removing the invalid transactions succeeds exactly when no removal fails with something other than "not found" |
| Selection.PrepareProposal | cosmos-sdk/baseapp/abci_utils.go:288-383 | the selection loop over a mempool returns what the laws are about and fails only for a signer error or a failing removal |
| SelectionLaws.ProposalIsOrderedAndFits | cosmos-sdk/baseapp/abci_utils.go:294-367 | for any verifier the proposal is a subsequence of the mempool order whose running sums fit |
| SelectionLaws.LimitsHoldUnlessSumsWrap | cosmos-sdk/baseapp/abci_utils.go:505-533 | total bytes and gas are within both limits as long as the uint64 sums do not wrap |
| SelectionLaws.SelectedSequencesAreConsecutive | cosmos-sdk/baseapp/abci_utils.go:316-363 | for each signer the sequences of selected ordered transactions are consecutive in selection order, also from sequence 0 |
| Greedy.TheProposalIsGreedy | cosmos-sdk/baseapp/abci_utils.go:288-383 | for any verifier and mempool there is exactly one way to mark the transactions turn by turn as unsigned, behind, rejected, without room or taken, up to the turn that ends the iteration; the proposal is what is taken, the invalid ones are the rejected, and the call fails exactly when the last one is unsigned |
| Greedy.TakenExactlyWhen | cosmos-sdk/baseapp/abci_utils.go:294-367 | a transaction is taken if and only if no earlier turn failed to extract signers or, verified, left a 64-bit sum at its limit, its signers are there, its sequences follow those noted, the verifier accepts it in the state the earlier ones left, and both sums stay within the limits |
| Greedy.SeqForIsLast | cosmos-sdk/baseapp/abci_utils.go:309-326 | of several entries of one signer the last counts |
| Agreement.ProcessProposal | cosmos-sdk/baseapp/abci_utils.go:395-431 | for any verifier a proposal is accepted exactly when every transaction verifies in turn and the 64-bit gas sum stays within the limit |
| Agreement.ProcessAcceptsExactlyWhen | cosmos-sdk/baseapp/abci_utils.go:395-431 | Process accepts any list at all exactly when every transaction verifies in the state those before it left and, with a positive limit, no 64-bit running sum of the gas is above it |
| Agreement.AcceptanceExactly | cosmos-sdk/x/auth/ante/sigverify.go:337-366 | when replay protection accepts, ordered and unordered, and what acceptance leaves of sequences and nonces |
| Agreement.AReplayIsRefused | cosmos-sdk/x/auth/ante/sigverify.go:361-366 | an accepted transaction is refused on what it leaves, an unordered one whatever comes in between |
| Agreement.AgreementExactly | cosmos-sdk/baseapp/abci_utils.go:288-430 | for verifiers that accept only what replay protection accepts, refuse anything else for whatever reason, and may or may not keep a refused transaction's sequence: from one base state, for any mempool order and block gas parameter, Process accepts Prepare's list if and only if every signer's first selected transaction carries the committed sequence and Process refuses none that replay protection accepts |
| Agreement.ProcessAcceptsWhatPrepareReturns | cosmos-sdk/baseapp/abci_utils.go:288-430 | so it accepts the list whenever Prepare's refusals left the accounts alone and Process refused nothing but replays, although Prepare's state has also seen transactions that did not fit |
| Agreement.AnteAloneAgrees | cosmos-sdk/baseapp/abci_utils.go:244-256 | and with the ante handler alone it always does |
| Agreement.ALateFailureSplitsTheHandlers | cosmos-sdk/baseapp/abci_utils.go:330-336 | for every verifier that refuses a signer's first transaction past the ante handler, Prepare selects the second alone and Process refuses it |
| StatefulAgreement.CoveredRefusalsAgree | cosmos-sdk/baseapp/abci_utils.go:288-430 | refusals by state that agree: where a relation between the two handlers' states makes Process accept what Prepare accepts, and dropped transactions keep it, the committed sequences alone decide |
| StatefulAgreement.UntouchedPartsAgree | cosmos-sdk/baseapp/abci_utils.go:288-430 | in particular refusals that depend on a part of the state that both handlers change alike and no dropped transaction changes |
| StatefulAgreement.FeesAgree | cosmos-sdk/x/auth/ante/fee.go:73-143 | with an ante handler that checks replays and deducts a fee from whoever can pay, Process accepts what Prepare returns, for all balances and mempools |
| StatefulAgreement.ADroppedWriteSplitsTheHandlers | cosmos-sdk/baseapp/abci_utils.go:330-343 | an input where Prepare selects what a dropped transaction's write made acceptable, and Process refuses it although all first sequences are the committed ones |
| AgreementRuns.VerifiedExactly | cosmos-sdk/baseapp/baseapp.go:1130-1167 | a run that verifies a proposal's transaction answers ok exactly when the ante handler accepts and neither `GetMsgsV2`, the marshalling of the responses nor the post handler fails after it; the branch keeps the ante writes in both cases, and nothing otherwise |
| AgreementRuns.RunsAgreeExactly | cosmos-sdk/baseapp/baseapp.go:1130-1167 | the exact condition of agreement with verification by `runTx` on the proposal's branch, for any ante handler that accepts only what replay protection on the stored accounts accepts, whatever else it or later stages refuse |
| AgreementRuns.RunsAgree | cosmos-sdk/baseapp/baseapp.go:957-1006 | Process accepts what Prepare returns, whatever the mempool holds, when nothing can fail past the ante handler and Process refuses nothing but replays |
| AgreementRuns.RunsWithFeesAgree | cosmos-sdk/x/auth/ante/fee.go:73-143 | the same when the ante handler also refuses whoever cannot pay and charges everybody else |
| AgreementRuns.ARefusingPostHandlerSplitsTheHandlers | cosmos-sdk/baseapp/baseapp.go:988-1006 | an application with a refusing post handler whose Prepare returns a list that its Process refuses |
| VoteExtensions.ValidateAgainstLastCommit | cosmos-sdk/baseapp/abci_utils.go:157-196 | accepts exactly the last commit's validator list, in the prescribed order and without repeats |
| VoteExtensions.ValidateVoteExtensions | cosmos-sdk/baseapp/abci_utils.go:45-151 | accepts exactly when the commit is consistent, every commit vote is fine and the 64-bit sums reach the requirement |
| VoteExtensions.FineExactlyWhenSigned | cosmos-sdk/baseapp/abci_utils.go:76-137 | a commit vote is fine exactly when, from the height after the enabling one, a known validator signed its extension for the previous height, round and chain, and before that it has neither extension nor signature; commit votes count exactly when extensions are on |
| VoteExtensions.OrderExactly | cosmos-sdk/baseapp/abci_utils.go:169-175 | the prescribed order: higher power first, equal powers by address, byte by byte |
| VoteExtensions.AcceptedIffTwoThirds | cosmos-sdk/baseapp/abci_utils.go:76-151 | below the overflow bound acceptance means verified extensions with strictly more than two thirds of the true total power, and conversely |
| VoteExtensions.BeyondTheBoundPowerIsNotChecked | cosmos-sdk/baseapp/abci_utils.go:139-148 | from 2^62 on, for every total of an int64, the power requirement vanishes, but for a power of 1 at a total of 2^63 - 1 |
| VoteExtensions.AbsentValidatorIsEnough | cosmos-sdk/baseapp/abci_utils.go:139-148 | an input: the extended commit of one absent validator of power 2^62 is accepted with no power verified |
| VoteExtensions.AcceptedCommitsOverlap | cosmos-sdk/baseapp/abci_utils.go:76-196 | two accepted commits over one last commit share validators with more than a third of the power, verified in both |
| Varint.SovIsLength | cosmos-sdk/types/abci.pb.go:1690-1692 | `sovAbci` is the length of the minimal base-128 encoding |
| Varint.EncodeVarint | cosmos-sdk/types/abci.pb.go:1403-1413 | the right-to-left writer puts the minimal encoding right in front of `offset` and touches nothing else |
| Varint.PutUvarint | cosmos-sdk/codec/proto_codec.go:79-81 | the forward writer of the frame prefix emits the same bytes |
| Varint.DecodeVarint | cosmos-sdk/types/abci.pb.go:1815-1829 | the unrolled loop reads at most ten groups and loses what is shifted past its 64 or 32 bits |
| Varint.ReadWritten | cosmos-sdk/types/abci.pb.go:1403-1413 | a written varint reads back, and the reader stops right behind it whatever follows |
| Wire.SkipAbci | cosmos-sdk/types/abci.pb.go:3579-3656 | the skipping loop returns the length of one field, groups included, or an error |
| Wire.SkipWritten | cosmos-sdk/types/abci.pb.go:3579-3656 | for every well-formed field, with groups nested to any depth, it returns exactly the field's length |
| Wire.SkipIsLocal | cosmos-sdk/types/abci.pb.go:3579-3656 | it looks at nothing behind the field |
| Parser.Unmarshal | cosmos-sdk/types/abci.pb.go:1809-2230 | the index loop computes the field-by-field parse, for any message type |
| Parser.UnmarshalField | cosmos-sdk/types/abci.pb.go:1830-1870 | one turn of the loop: illegal tags, wrong wire types, bad lengths and short input are refused |
| Parser.IllegalFieldsAreRefused | cosmos-sdk/types/abci.pb.go:1830-1870 | input that begins with an end of a group, a field number that is 0 or negative as 32 bits, or a known field of another wire type is refused |
| Parser.ConcatenationIsMerge | cosmos-sdk/types/abci.pb.go:1809-2230 | if `a` parses, parsing `a ++ b` into m is parsing `b` into the result of parsing `a` into m |
| Parser.UnknownFieldIsInvisible | cosmos-sdk/types/abci.pb.go:2206-2224 | inserting any well-formed unknown field between fields changes nothing |
| Messages.LogSizeIsLength | cosmos-sdk/types/abci.pb.go:1475-1496 | `Size` of a message log is the length of its encoding |
| Messages.EventSizeIsLength | cosmos-sdk/types/abci.pb.go:1497-1515 | `Size` of an event is the length of its encoding |
| Messages.AttributeSizeIsLength | cosmos-sdk/types/abci.pb.go:1516-1531 | `Size` of an attribute is the length of its encoding |
| Messages.AttributeRoundTrip | cosmos-sdk/types/abci.pb.go:2482-2595 | parsing an encoded attribute into an empty one gives it back |
| Messages.EventRoundTrip | cosmos-sdk/types/abci.pb.go:2366-2481 | the same for an event with its repeated attributes |
| Messages.LogRoundTrip | cosmos-sdk/types/abci.pb.go:2231-2365 | the same for a message log: repeated sub-messages inside repeated sub-messages |
| Marshal.MarshalAttribute | cosmos-sdk/types/abci.pb.go:1026-1046 | the attribute ends exactly at the end of the buffer part, the rest is unchanged, the reported size is `Size` |
| Marshal.MarshalEvent | cosmos-sdk/types/abci.pb.go:982-1009 | the same for an event, last attribute first |
| Marshal.MarshalLog | cosmos-sdk/types/abci.pb.go:933-965 | the same for a message log, last event first |
| Marshal.MarshalNewLog | cosmos-sdk/types/abci.pb.go:918-926 | `Marshal` fills a buffer of exactly `Size()` bytes that parses back to the message |
| TxResponses.ResponseRoundTrip | cosmos-sdk/types/abci.pb.go:1809-2230 | parsing an encoded response into an empty one gives back all thirteen fields, negative numbers included, given sub-messages that round-trip |
| MarshalResponse.ResponseSizeIsLength | cosmos-sdk/types/abci.pb.go:1414-1473 | `Size` of a response is the length of its encoding |
| MarshalResponse.MarshalTxResponse | cosmos-sdk/types/abci.pb.go:808-916 | the response ends exactly at the end of the buffer part, the rest is unchanged |
| MarshalResponse.MarshalNewResponse | cosmos-sdk/types/abci.pb.go:793-801 | `Marshal` fills a buffer of exactly `Size()` bytes that parses back to the response |
| WireValues.AttributeBytes | cosmos-sdk/types/abci.pb.go:1026-1046 | an attribute is its fields behind the tags 0A and 12 |
| WireValues.EventBytes | cosmos-sdk/types/abci.pb.go:982-1009 | an event is its fields behind the tags 0A and 12 |
| WireValues.LogBytes | cosmos-sdk/types/abci.pb.go:933-965 | a message log is its fields behind the tags 08, 12 and 1A |
| WireValues.ResponseIsItsBytes | cosmos-sdk/types/abci.pb.go:808-916 | a response is its thirteen fields in order behind the tags 08 to 6A, written out |
| WireValues.OneNumberAlone | cosmos-sdk/types/abci.pb.go:808-916 | a response with only height, gas wanted or gas used set is the tag 08, 48 or 50 and the base-128 groups of the number, or of 2^64 above a negative one |
| WireValues.KnownFields | cosmos-sdk/types/abci.pb.go:1837-2230 | which field numbers each of the four messages knows, and with which wire type |
| WireValues.NumbersRead | cosmos-sdk/types/abci.pb.go:1838-2110 | every 64-bit number behind those tags reads as the congruent int64, and the code as its low 32 bits |
| WireValues.IndexRead | cosmos-sdk/types/abci.pb.go:2260-2280 | the message index reads as its low 32 bits |
| Framing.Uvarint | cosmos-sdk/codec/proto_codec.go:119-120 | the prefix reader, with 0 for short input and a negative count for overflow |
| Framing.MarshalLengthPrefixed | cosmos-sdk/codec/proto_codec.go:73-82 | a frame is the minimal varint of the length, then the bytes |
| Framing.AcceptedIffFramed | cosmos-sdk/codec/proto_codec.go:119-133 | an input passes if and only if it is empty or some varint followed by exactly as many bytes as it says, and what is handed on are those bytes |
| Framing.WrittenIsMinimal | cosmos-sdk/types/abci.pb.go:1403-1413 | a written varint denotes its value, and no varint of that value is shorter |
| Framing.FrameRoundTrip | cosmos-sdk/codec/proto_codec.go:73-133 | unframing undoes framing for all message bytes |
| Framing.FramedLogRoundTrip | cosmos-sdk/codec/proto_codec.go:73-133 | a framed message log comes back |
| Framing.UnmarshalLengthPrefixed | cosmos-sdk/codec/proto_codec.go:119-133 | the framed message is parsed into a blank one from exactly the bytes behind its prefix |
| Bus.StepKeepsValid | chain/pubsub/bus.go:108-178 | every step keeps the tree, the segments, the lockstep of parents and children, the pending shutdowns and the reports in order |
| Bus.EverySubscriberHasASegment | chain/pubsub/bus.go:114-150 | in every reachable state each subscriber at any depth has emitted and buffered a contiguous, ordered, duplicate-free piece of what was published |
| Bus.CloneMissesNothing | chain/pubsub/bus.go:180-202 | whatever happens later, a clone's piece begins with the first event its source had not emitted when it was made |
| Bus.NothingIsLost | chain/pubsub/bus.go:137-150 | when no event is on its way, each subscriber below running buses has everything up to the last published event |
| Bus.ReportsOnceAfterDescendants | chain/pubsub/bus.go:166-178 | a bus reports closed exactly once, and only after everything below it has |
| Bus.NeverStuck | chain/pubsub/bus.go:72-94 | whenever a bus is passing an event on or closing, some step is possible without the outside, although a passing bus is committed to one subscriber at a time |
| Bus.NewBusesWait | chain/pubsub/bus.go:180-202 | a new bus runs and waits, and the root takes a publication exactly when it waits in its select |
| BusProgress.InternalIsProgress | chain/pubsub/bus.go:108-178 | every step the buses take of their own leaves strictly less work |
| BusProgress.InternalStepsRunOut | chain/pubsub/bus.go:108-178 | between two publications or subscriptions the buses take at most that many steps of their own, in any order and however often consumers take events or ask for shutdowns |
| BusProgress.SettledHasEverything | chain/pubsub/bus.go:137-178 | when no such step is left, no event is on its way, every bus asked to shut down has, and each subscriber below running buses has everything published |
| BusProgress.CanSettle | chain/pubsub/bus.go:108-178 | from every valid state the buses can get there by steps of their own |
| BusProgress.EveryEventArrives | chain/pubsub/bus.go:72-178 | along every run of that kind from a reachable state, what a subscriber below running buses has emitted and buffered is then the log from its start to the last published event |
| BusLoops.BusLoop.Subscriber | chain/pubsub/bus.go:180-202 | a new subscriber starts with a copy of its parent's buffer |
| BusLoops.BusLoop.OnPublish | chain/pubsub/bus.go:137-150 | an event is buffered in subscriber mode only and goes to the subscriptions of that moment |
| BusLoops.BusLoop.OnTurn | chain/pubsub/bus.go:144-148 | the loop over the subscriptions commits to one subscriber that has not had the event |
| BusLoops.BusLoop.OnEmit | chain/pubsub/bus.go:117-135 | the first buffered event goes out and leaves the buffer |
| UpstreamIdMap.UpstreamIds.Issue | pool-proxy/proxy.py:202-208 | the next id is used once; beyond 1024 waiting entries the oldest is dropped |
| UpstreamIdMap.UpstreamIds.Resolve | pool-proxy/proxy.py:210-213 | only an int id that waits finds its entry, which is removed |
| UpstreamIdMap.IssueKeepsOrder | pool-proxy/proxy.py:196-208 | ids rise, at most 1024 wait, and dropped ids stay below every waiting one |
| UpstreamIdMap.ResolveKeepsOrder | pool-proxy/proxy.py:210-213 | answering keeps that, and the answered id waits no more |
| SessionLaws.EveryCreditIsEarned | pool-proxy/proxy.py:244-344 | in every interleaving each credit was caused by the pool's positive answer to an upstream id that was given to an earlier forwarded submit, for a job the pool had announced before that submit, and weighs what that job was announced with |
| SessionLaws.CreditsAreDistinct | pool-proxy/proxy.py:186-213 | no two credits share an upstream id or a submit |
| SessionLaws.AnswersGoBack | pool-proxy/proxy.py:257-265 | an answer goes back under the id of the request it answers, at most once |
| SessionLaws.EveryIdIsAccountedFor | pool-proxy/proxy.py:196-213 | every id given out is waiting, dropped or answered, and only one of these; tables stay within their sizes; dropped ids are older than waiting ones |
| SessionLaws.CpuCreditsOneAddress | pool-proxy/proxy.py:289-328 | all credits of a CPU session go to its one login address |
| SessionLaws.GpuRelaysOnlyIssuedJobs | pool-proxy/proxy.py:515-540 | on the GPU path every submit that is given an upstream id is for a job the pool announced on this connection before |
| SessionLaws.CreditExactlyWhenEarned | pool-proxy/proxy.py:419-435 | a line adds a credit exactly when it is a positive answer to a waiting share of a connected session with an address |
| SessionCompleteness.TableHoldsLatest | pool-proxy/proxy.py:229-256 | in every run the job table names each job once, with the difficulty of its latest announcement |
| SessionCompleteness.OneAnnouncement | pool-proxy/proxy.py:229-256 | an announced job keeps its place or goes to the end, and the oldest job leaves exactly when 256 (CPU) or 64 (GPU) others were there |
| SessionCompleteness.ASubmitCarriesItsWeight | pool-proxy/proxy.py:328-344 | a submit with an id for a job in the table is registered with the job's latest difficulty; for any other job it carries no weight on the CPU path and is refused on the GPU path |
| SessionCompleteness.AWaitingShareIsCredited | pool-proxy/proxy.py:257-265 | a positive answer to a request that waits with a weight credits exactly that weight |
| SessionCompleteness.AnEarnedShareIsCredited | pool-proxy/proxy.py:244-344 | in every interleaving a submit for a known job whose id still waits when the pool answers it positively is credited exactly once, with the job's difficulty at the submit, to the address at the answer |
| SessionCompleteness.PositiveIs | pool-proxy/proxy.py:257-265 | which combinations of error and result each handler takes for accepted |
| SessionCompleteness.FlagsExactlyWhen | pool-proxy/proxy.py:289-328 | over the whole trace: when a session is connected, and when it has ended |
| SessionCompleteness.IdIsGivenExactlyWhen | pool-proxy/proxy.py:328-344 | exactly the lines that are passed on and have an id are given the next one |
| SessionCompleteness.WhoAnnounces | pool-proxy/proxy.py:415-424 | on the GPU path only messages that are no answers announce jobs |
| SessionCompleteness.RefusedExactlyWhen | pool-proxy/proxy.py:484-535 | which lines of the miner the proxy answers itself |
| SessionCompleteness.RelayedExactlyWhen | pool-proxy/proxy.py:257-267 | what goes on to the miner, and under which id |
| SessionLaws.CreditGoesToAddressInForce | pool-proxy/proxy.py:419-435 | every credit, on both paths, goes to the address in force right before its answer, and credits come in the order of their answers |
| SessionLaws.AddressIsLastNamed | pool-proxy/proxy.py:497-510 | the address in force is the one the last accepted login since then named, or the one before |
| SessionLaws.CreditGoesToSubmitterExactlyWhen | pool-proxy/proxy.py:419-435 | a credit goes to the address in force at its submit if and only if no login handled between submit and answer named another |
| SessionLaws.CreditsShareAddressExactlyWhen | pool-proxy/proxy.py:419-435 | two credits share an address if and only if no login handled between their answers named another last |
| SessionLaws.SessionPaysOneAddressExactlyWhen | pool-proxy/proxy.py:419-435 | all credits of a session go to one address if and only if that holds between each credit and the next |
| SessionLaws.GpuAddressCanChange | pool-proxy/proxy.py:497-514 | a trace in which a GPU share submitted under one address is credited to another |
| SessionLaws.WireIdsAreTheProxys | pool-proxy/proxy.py:186-213 | over every run each line written to the pool has the id of the forward it records when it has a method and an id, and otherwise goes out as the miner wrote it |
| SessionLaws.WireIdIsFreshExactlyWithMethod | pool-proxy/proxy.py:328-344 | an id on the wire is the proxy's own, and then on no other such line, if and only if its message has a method |
| SessionLaws.AMethodlessIdCanCollide | pool-proxy/proxy.py:543-549 | a trace in which a message without a method carries an id that waits for an answer |
| MinerSessions.MinerSession.MinerLine | pool-proxy/proxy.py:269-344 | a line from the miner changes the tables as the machine does, writes upstream what the wire laws are about, and is refused locally exactly where the machine says, on both paths |
| MinerSessions.MinerSession.SettleReply | pool-proxy/proxy.py:257-265 | an answer is mapped back to the miner's id and credited when positive |
| MinerSessions.MinerSession.PoolMessage | pool-proxy/proxy.py:229-267 | a line from the pool records its jobs, then settles what it answers, and goes on to the miner under the miner's id |
| ShareLog.Log.constructor | pool-proxy/proxy.py:101-114 | the log and the totals start from what was saved, each empty when it is missing |
| ShareLog.Log.RecordShare | pool-proxy/proxy.py:131-144 | after every call the log is the loaded one with all calls since, pruned, and the lifetime totals are the loaded ones and those of every event since |
| ShareLog.Log.PruneEvents | pool-proxy/proxy.py:125-128 | pruning happens exactly under its two conditions and keeps the events in the window |
| ShareLog.Log.WindowShares | pool-proxy/proxy.py:164-183 | the report is that of the events in the window of the full log, pruned or not, as long as the clock never ran backwards |
| ShareLog.ReportIsDifficulties | pool-proxy/proxy.py:131-183 | every number of the report is the sum, over the calls in the window, of the difficulty that was given, or 1 where it was missing or not positive; or their count |
| ShareLog.TotalsAreDifficulties | pool-proxy/proxy.py:131-144 | lifetime totals are the loaded ones and, for every call since, its difficulty and one share |
| ShareLog.TotalsOfAFreshLog | pool-proxy/proxy.py:131-144 | the entries of a log that began empty, and who has none |
| ShareLog.PrunedExactlyWhen | pool-proxy/proxy.py:125-128 | the log is pruned exactly above 50000 events or when the oldest is more than an hour older than the window, and then to the events of the window |
| ShareLog.PruningIsInvisible | pool-proxy/proxy.py:125-183 | with a clock that never runs backwards the report is the same on the pruned and on the full log |
| ShareLog.RestartIsInvisible | pool-proxy/proxy.py:106-122 | loading what was saved after some calls and going on gives the log of all calls together |
| ShareLog.TotalsAddUp | pool-proxy/proxy.py:106-122 | totals that are true up to a save and from it on are true altogether |
| ShareLog.ReportIsTrue | pool-proxy/proxy.py:164-183 | every number of the report is the weight or count of the events it names |
| ShareLog.DevicesAddUp | pool-proxy/proxy.py:164-183 | totals are CPU plus GPU, per address as well |
| ShareLog.AddressesAreListed | pool-proxy/proxy.py:164-183 | the addresses of the events, without repeats, are exactly those of the report, and no device's report has others |
| ShareLog.TotalIsSumOverAddresses | pool-proxy/proxy.py:164-183 | each total, of the report and of both devices, is the sum over those addresses |
| ShareLog.RecordingKeepsTotals | pool-proxy/proxy.py:134-142 | lifetime totals are the loaded ones and those of every event recorded since, pruned or not |
| Regrouping.To5 | pool-proxy/proxy.py:79-87 | regrouping spells the bits of the bytes in fives, filled up with zeros, although the accumulator is never masked |
| Regrouping.From5 | provider-agent/agent.py:306-315 | regrouping back cuts the bits into bytes and drops what is left |
| Regrouping.RegroupRoundTrip | provider-agent/agent.py:332-344 | back after forth is the identity on bytes |
| Bech32.Polymod | provider-agent/agent.py:321-329 | the polymod loop is the fold the checksum laws are about |
| Bech32.LastSixXor | pool-proxy/proxy.py:67-77 | replacing the last six zero symbols XORs the packed symbols into the polymod |
| Bech32.PrintedVerifies | pool-proxy/proxy.py:74-78 | every printed address satisfies polymod = 1 (BIP-173, section "Bech32") |
| Bech32.ProxyAddress | pool-proxy/proxy.py:88-99 | the proxy prints the address of the account |
| Bech32.EvmToBech32 | provider-agent/agent.py:332-348 | the agent prints the same address |
| Bech32.Bech32ToEvm | provider-agent/agent.py:301-318 | the reader refuses a missing separator, a foreign character and any length but 20 bytes |
| Bech32.AddressRoundTrip | provider-agent/agent.py:301-348 | reading undoes printing for every 20-byte account under every prefix; printed accounts of other lengths are refused |
| AddressLiterals.TheTestVectorVerifies | pool-proxy/proxy.py:66-78 | the valid string of BIP-173 that has every character of the set: its symbols are 0 to 31 and it verifies |
| AddressLiterals.TheAddressOfAnAccount | provider-agent/agent.py:332-348 | one account of twenty bytes with its whole printed address, which is read back |
| Bech32.AcceptedExactlyByLength | provider-agent/agent.py:301-318 | symbols behind the last '1' are read exactly when there are 38 or 39 of them |
| Bech32.OnlyFirst32Matter | provider-agent/agent.py:306-315 | the account read is that of the first 32 symbols: a 33rd and the last six are dropped unseen |
| Bech32.OneChecksumFits | pool-proxy/proxy.py:67-77 | behind given data no two sextuples of symbols have the same polymod |
| Bech32.PrintedExactlyWhenVerified | provider-agent/agent.py:301-348 | an accepted string is the printed address of the account read if and only if it has 38 symbols and its polymod is 1 |
| Bech32.WrongChecksumIsRead | provider-agent/agent.py:305-306 | every 20-byte account is also read from its data symbols with any six others, which is not its address |
| Bech32.AnUnprintedStringIsRead | provider-agent/agent.py:305-306 | one such string |
| Inflow.BscWatch.ScanInflows | provider-agent/agent.py:485-533 | one scan, with every early return, the dedup by key, a raise in the middle and the 500-key ring |
| Inflow.BscWatch.RunEpoch | provider-agent/agent.py:1041-1047 | the pot shrinks by the epoch's value only when it was attributed |
| Inflow.HandedOutExactlyWhen | provider-agent/agent.py:1041-1047 | the whole pot is handed out exactly when somebody was paid and the scan did not raise |
| Inflow.RaisesExactlyWhen | provider-agent/agent.py:520-533 | the loop raises exactly at a garbled entry whose key is not held when it is reached |
| Inflow.ScanCounts | provider-agent/agent.py:485-533 | one scan, one transfer: it is booked once more exactly when it becomes taken (passed, or its key held) or its key is lost |
| Inflow.DroppedWhenFiveHundredNewer | provider-agent/agent.py:532 | a key leaves the ring exactly when 500 or more were booked after it |
| Inflow.BookedOncePlusLosses | provider-agent/agent.py:485-533 | over every run, whatever heads are reported, a transfer has been booked once for every time its key was lost, and once more if it is taken |
| Inflow.DoubledExactlyWhenLost | provider-agent/agent.py:520-533 | a transfer the watch has passed was booked at least once, and more than once if and only if some scan ended its window below it and dropped its key from the ring |
| Inflow.ExactlyOnce | provider-agent/agent.py:485-548 | over every run pending plus distributed is the sum over the transfers taken of the amount divided by 10^12, plus that of every loss; it is the sum of those taken alone if and only if no key was lost |
| Inflow.CleanRunIsExact | provider-agent/agent.py:485-548 | when no response is garbled, whatever heads are reported, it is the sum over the transfers after the start block up to `last_block` |
| Inflow.SteadyHeadLosesNothing | provider-agent/agent.py:520-533 | with garbled responses too, no key is lost as long as the reported head does not go back |
| InterruptedScan.ATransferIsBookedTwice | provider-agent/agent.py:520-533 | a run with an interrupted scan of 501 transfers and a head that goes back, in which a transfer is booked twice and the sum is off |
| Payout.SplitAddsUp | provider-agent/agent.py:703-705 | a payment splits exactly into four non-negative parts: the floors of 88, 4 and 4 percent, and the treasury's less than three units above 4% |
| Payout.DueExactlyWhen | provider-agent/agent.py:701-707 | a payment is due exactly when value and price are positive and the value buys at least one and a half millionths |
| Payout.AmountsAre | provider-agent/agent.py:703-714 | the total is the nearest integer, and the provider's dollars the floor of 88% |
| Money.RoundIsNearest | provider-agent/agent.py:703 | rounding takes the nearest integer, of two the even one |
| Payout.SpendExactly | provider-agent/agent.py:399-402 | a swap spends all that waits, or as much as is there, when both reach 50000, and nothing otherwise |
| Payout.FlushExactly | provider-agent/agent.py:1057-1096 | pot by pot what a flush changes |
| Payout.FleetExactly | provider-agent/agent.py:876-887 | what the simulated fleet adds to the pots |
| Payout.PayoutBooks.BuybackSwap | provider-agent/agent.py:399-402 | a swap spends at most the request and the live balance, and nothing below the floor |
| Payout.PayoutBooks.PayProvider | provider-agent/agent.py:695-749 | one payment with every way it can end |
| Payout.PayoutBooks.FlushPots | provider-agent/agent.py:1057-1096 | each pot of at least 1000 is emptied when its transfer goes through, and kept otherwise |
| Payout.PayoutBooks.BookDexFee | provider-agent/agent.py:797-801 | a redeemed fee goes to the three pots in equal thirds |
| Payout.BooksBalance | provider-agent/agent.py:695-887 | over all epochs, simulated fleet included, each pot's accruals are pending plus flushed, each provider's booked host USDC is swapped plus pending, and payments and fees are exactly the host parts and the accruals |
| Payout.PayoutBooks.AccrueFleet | provider-agent/agent.py:876-887 | the simulated fleet's staker, treasury and burn parts go to the pots, its host part to none |
| Payout.BookedExactlyWhenItGoesThrough | provider-agent/agent.py:695-749 | a payment is booked - counted, in the sums, in the pots, and with a buyback with its provider - if and only if it is due and does not raise: price and value positive, host part above 0, and no raising transfer or swap reached |
| Payout.OtherwiseNothingChanges | provider-agent/agent.py:701-749 | otherwise no amount of anybody's changes |
| Payout.ARaisedShareIsDropped | provider-agent/agent.py:710-749 | an input: 880000 units are due, the swap raises, and none are pending |
| Payout.ASmallShareIsDropped | provider-agent/agent.py:701-707 | an input: one unit is due, its host part rounds to nothing, and nothing is booked |
| Payout.FlushLeavesDust | provider-agent/agent.py:1063-1066 | after a flush that goes through every pot is below the floor |

## Left out

- RunTx: gas meters follow the store package's types, which are not part of this repository; events, gas info and logs are not modelled.
- BlockMachine: the committed multistore is a map; its version, the store hashes, pruning, snapshots, streaming listeners and cache reads are not part of this model.
- BlockSteps: an error return and a panic of a block hook both end the run, also inside the optimistic goroutine.
- BaseAppObject.BaseApp.InitChainCall: the chain-id check, the consensus parameters and the answer are left out; a failing check is an `init` that answers nothing.
- BaseAppObject.BaseApp.CheckTxCall: codes, logs and gas information of the answer are left out.
- BaseAppObject.BaseApp.PrepareProposalCall: the handler is any function that leaves writes in its branch; its answer is modelled in `Selection`.
- BaseAppObject.BaseApp.ProcessProposalCall: the handler is any function that leaves writes in its branch, and its verdict is a parameter; the default handler's is modelled in `Agreement`.
- BaseAppObject.BaseApp.ExtendVoteCall: the extension in the answer and the refusal below the enable height are left out, because neither touches the state.
- BaseAppObject.BaseApp.CommitCall: halting at a configured height, snapshots and the retain height in the answer are left out; the retain height is `Retention`.
- Mempool: insertion and removal answer as functions of the transaction; the pool's own order is an arbitrary list.
- Selection.PrepareProposal: the branch for a missing or no-op mempool, which only applies the byte and gas limits in the requested order, is left out, and so is re-encoding a transaction; Process then accepts everything, so there is no agreement to prove.
- AgreementRuns.RunsAgreeExactly: a mempool transaction is taken to decode from its own encoding.
- StatefulAgreement.FeesAgree: fees are in one denomination and paid by a fixed payer out of a balance; fee grants and crediting the fee collector, which never pays, are left out.
- Parser.Unmarshal: which error is returned is not modelled, only that one is.
- Messages: GasInfo and the other messages of the file have the same shape and are left out; a nil message and `XXX_` methods too.
- TxResponses.ResponseRoundTrip: `Any` and `types.Event` are known by their round-trip contract only.
- Framing.UnmarshalLengthPrefixed: unpacking of interfaces after parsing is left out.
- Bus: the lifecycle package is its documented contract (a shutdown request, its start, its completion); requesting the shutdown of all subscriptions is one step, which adds no behaviour to asynchronous requests.
- BusLoops: each bus object is proved against the step function of its own state; a heap of such objects is not composed into a net.
- Sessions: JSON decoding, worker names, rewritten logins and logging are left out; a line arrives as what the handlers look at, and job ids that Python treats as equal keys are equal here.
- ShareLog.Log.RecordShare: the last-seen time and the coin are left out, and so is the file's format; a load that fails gives the empty log.
- Bech32: hexadecimal text and the regular expressions of `resolve_addr` are left out; an account is its list of bytes.
- Inflow.ExactlyOnce: restarts between a booking and the next save are left out; a scan chunk is at least one block, as configured.
- Payout: the float totals kept for display, prices, slippage, gas and the ibc-mode carry-over are left out; money floats are exact rationals.
- Attribution: how an epoch's value is divided among addresses is left out; a payment takes its value as given.
- chain/evmrpc, dex scripts, queries, routers, wiring, command line and configuration are left out.
