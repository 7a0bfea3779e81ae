# Swapperd in Dafny

Swapperd runs cross-chain atomic swaps. Two daemons lock coins in hash-time-locked contracts
(HTLCs) on two blockchains; the initiator claims the responder's coins with a secret, and the
claim publishes the secret with which the responder claims the initiator's. This project models
the Go core of the daemon and proves what the two daemons, the message-passing system inside each
of them, the Bitcoin script, the storage and the arithmetic guarantee.

## The parts

- **Two-party protocol** (`Ledger`, `Protocol`, `Atomicity`, `LenientAudit`). The two daemons run against two
  ledgers, one step per contract call, with arbitrary interleaving and a clock that never goes
  back. A call may fail without effect, fail after taking effect, or be passed over in silence
  because its precondition could not be read. `RobustInv` holds whatever goes wrong, restarts
  included; `SteadyInv` holds without restarts; `IniTrue` and `ResTrue` are what a daemon may believe
  while it can read its own preconditions. `LenientAudit` is the same protocol with Bitcoin binders, whose
  audits take a failed query for an unfunded contract.
- **Contract binders** (`CostLedger`, `Contracts`, `BtcAccount`). The classes that call one
  contract and keep account of what that cost.
- **Passes** (`Passes`, `Immediate`, `Interleaving`). The methods that run `initiate` and `respond` over the
  binders are shown to be runs of the protocol, and their messages the effects the task system uses.
  Any number of passes of both daemons, interleaved call by call, is again one run of the protocol.
- **Task system** (`Tasks`, `TickLoops`, `Delayed`, `Callback`, `SwapperTask`, `TaskSystem`, `Ticks`, `Recovery`,
  `LateBootload`). The parent swapper, its delayed and immediate children, their queues and the pending table, under
  arbitrary schedules, storage errors and crashes. `SwapperTask.Parent` is the parent on top of the
  byte-level store; its methods and those of the two children are shown to be their steps of the task system.
- **Store** (`LexOrder`, `Hex`, `Store`, `Database`). Four tables in one ordered byte-key store.
- **Bitcoin script** (`ScriptNum`, `Script`, `HtlcScript`, `BtcContract`, `Spending`, `ContractBytes`). Builder,
  parser, interpreter with OP_IF/OP_ELSE/OP_ENDIF and script numbers, OP_CHECKLOCKTIMEVERIFY
  (section "Detailed Specification" of BIP 65) and pay-to-script-hash (section "Specification" of
  BIP 16).
- **Amounts** (`Decimal`, `Costs`, `Amounts`, `PriceCheck`). Fees, dust, balances and the price check.
- **Request handler and builder** (`Binder`, `Handler`, `Secrets`). From a posted swap to the two contracts,
  the response for the counterparty, and bootloading a password before its first swap.

`Common` and `Swaps` hold the shared types. `dafny verify dfyconfig.toml` checks everything.

## Assumptions

- Hash preimages cannot be guessed: `Ledger.AfterRedeem` accepts only the preimage. Where a proof
  needs that two concrete byte strings do not collide, it says so (`Spending.NoCollision`,
  `Spending.ScriptHashIsUnique`, `Secrets.NoClash`).
- A call that a binder reports as confirmed took effect, and a Refund that returns an error did not.
  Initiate and Redeem may return an error after taking effect.
- `Contracts` and `BtcAccount` take the answers of the chain clients as parameters. For
  `BtcAccount.ShortfallExact` the client answers "funded" exactly when the asked amount has arrived.
- The swap IDs the store is asked about decode to 32 bytes, and in the one spelling the stored row has
  (`Database.Db.Canonical`, `SwapperTask.Parent.Plain`); fresh IDs are new.
- No password seen on the host opens a swap that somebody else has posted (`TaskSystem.SingleOwner`, over the
  passwords and swaps of the run in question).
- The broker's answer keeps the ID and the password hash of a delayed swap (`Callback.GoodFill`); the IDs the handler
  draws are all of one length.
- Stored values are read back as written (JSON), and base64 decoding undoes encoding.
- Task queues are first-in first-out; a batch of messages arrives in order.

## Where the code and its intention differ

For each of these the exact condition is proved under which the code does what is intended, in most cases with a
run or an input in which it does not.

- Both contracts of a swap are locked until the same moment; the staggered time locks are computed and
  dropped (`Binder.OneTimeLock`).
- A daemon's last report can be wrong, because a false or unreadable precondition counts as success
  (`Atomicity.ReportsCanBeWrong`, `Atomicity.SwallowedRefund`; exactly when: `Atomicity.ReportsExact`).
  Without a late claim, a daemon that can read its own preconditions reports the truth
  (`Atomicity.PunctualSettlement`).
- Restarting the initiator on a swap it has already refunded can break atomicity, exactly when the
  responder's contract has not been refunded (`Atomicity.RestartExact`); with no restart of the responder to come,
  exactly when that contract is or may still be opened (`Atomicity.InitiatorRestartExact`). A finished swap is picked up
  again by a restart when its row was not deleted before the crash (`Recovery.BootloadRebuilds`).
- A Bitcoin audit takes a failed query for an unfunded contract, and after the time lock for an expired one. If the
  responder's contract is on Bitcoin, an initiator whose claim took effect although an error was returned can then
  take its own coins back too (`LenientAudit.LateFailureHappens`; exactly when: `LenientAudit.LateFailureExact`;
  otherwise the swap stays atomic: `LenientAudit.AtomicOnBitcoin`). A responder can report Expired with its coins
  locked exactly when the initiator's contract is on Bitcoin (`LenientAudit.ExpiredReportExact`).
- A responder restarted after its refund took effect asks for a secret for ever (`Atomicity.RestartedResponderExact`).
- A request whose contracts cannot be built is dropped until a restart (`Recovery.UnbuiltIsReleased`,
  `Recovery.ReleasedForGood`); otherwise every stored swap of a bootloaded owner is worked on
  (`Recovery.EveryRowIsServed`).
- A swap posted before its owner's bootload was delivered can end up with two live requests, and only such a one
  (`LateBootload.LateBootloadExact`). The handler keeps the order unless a delivery fails, which it does not notice
  (`Handler.RequestHandler.PostSwaps`, `Handler.OrderKept`, `Handler.OutboxAccepted`).
- A range scan misses the row with the identifier of 32 bytes 0xFF, and only that one
  (`Store.RangeExact`, `Database.ScanIsComplete`).
- The broker may fill a delayed swap in another token than the one offered, which the price check accepts and the
  balance check has not covered (`Handler.FillInAnotherToken`); the check made for the offer covers a fill exactly when
  the token is the same (`Amounts.FillTokenExact`).
- Raising the receive amount keeps a fill acceptable exactly when the offered send amount is not negative, or the
  offer accepts nothing at all (`PriceCheck.RaisingReceive`).
- Lowering the send amount keeps a fill acceptable exactly when the offer asks for a non-negative amount;
  negative amounts parse (`PriceCheck.LoweringSend`).
- A minimum receive amount that cannot be read turns down only fills that receive less than nothing
  (`PriceCheck.MinimumExact`).
- An amount the Bitcoin balance check lets through can leave too little for the claim to be paid out, exactly when the
  broker takes more than 88.69 percent or pays out more than the amount (`BtcAccount.AcceptedIsPaidOut`).
- Password and ID are hashed without a separator, so two swaps whose IDs differ in length can share a secret
  (`Secrets.LengthMatters`); with IDs of one length they never do (`Secrets.SecretExact`).
- Bitcoin refunds pass exactly for time locks in [0, 2^32) (`Spending.RefundTiming`).
- A Bitcoin contract that lacks 1 to 599 satoshi counts as initiated and is never accepted
  (`BtcAccount.ShortfallExact`).
- A claim of a Bitcoin contract without a broker fee has an output of nothing, and only such a claim has an output
  below the dust limit (`BtcAccount.BtcSwapContract.Redeem`).
- The balance check does not see to it that the wallet can pay on Bitcoin when the broker fee is negative, which the
  dust limit turns into 600 satoshi, nor for DGX unless the table of transaction costs that all Ethereum tokens share
  happens to hold a high enough fee for it (`Amounts.SolvencyExact`).
- A negative broker fee is never paid in, but a refund takes it off the books
  (`CostLedger.BrokerFeeIffFundedAndNotRefunded`).

## Model

| member | source | states |
|---|---|---|
| Atomicity.Atomic | core/wallet/swapper/immediate/immediate.go:70-124 | with contracts that audit as the Ethereum and ERC20 binders do, in no reachable state, under any interleaving, error, retry or swallowed precondition, is one contract claimed and the other refunded |
| Protocol.StepRobust | core/wallet/swapper/immediate/immediate.go:70-124 | every call of either daemon, whatever goes wrong with it, keeps the ledger invariant and the order of the event log |
| Protocol.StepSteady | core/wallet/swapper/immediate/immediate.go:70-124 | without restarts, every call keeps reports, program counters, ledgers and the clock consistent, whatever goes wrong with it |
| Protocol.StepIniTrue | core/wallet/swapper/immediate/immediate.go:70-91 | what the initiator believes stays true as long as its own preconditions can be read, whatever the responder does |
| Protocol.StepResTrue | core/wallet/swapper/immediate/immediate.go:93-124 | what the responder believes stays true as long as its own preconditions can be read, whatever the initiator does |
| Atomicity.EventOrder | core/wallet/swapper/immediate/immediate.go:72-123 | A is opened before B, B before it is claimed, B claimed before A, refunds after opening, each event once, and the log matches the ledgers |
| Atomicity.InitiatorRefundedIsTrue | core/wallet/swapper/immediate/immediate.go:82-85 | with such contracts, after the initiator reports Refunded, B is never claimed in any continuation; A stays refunded if the initiator could read its own preconditions |
| Atomicity.ResponderRedeemedIsTrue | core/wallet/swapper/immediate/immediate.go:120-123 | after a responder that could read its own preconditions reports Redeemed, both contracts are claimed with the preimage for good |
| Atomicity.ResponderExpiredLockedNothing | core/wallet/swapper/immediate/immediate.go:98-100 | a responder that reports Expired never has anything locked, then or later |
| Atomicity.ReportsExact | adapter/binder/eth/eth.go:134-171 | in every run, the last report of either daemon is true if and only if the contract was in the right state and could be read in that last call |
| Atomicity.ReportsCanBeWrong | adapter/binder/eth/eth.go:274-279 | concrete runs in which Redeemed and Refunded are reported although the other side won the race after the time lock |
| Atomicity.SwallowedRefund | adapter/binder/eth/eth.go:136-142 | a concrete run in which an unreadable refund is reported as Refunded while the coins stay locked |
| Atomicity.PunctualSettlement | core/wallet/swapper/immediate/immediate.go:70-124 | without a claim after the time lock, each daemon that can read its own preconditions reports the truth, and when both can and have finished the swap is settled on both sides |
| Atomicity.TerminationPastExpiry | core/wallet/swapper/immediate/immediate.go:70-124 | after the time lock, whatever went wrong before and whatever the other daemon does, three calls of its own without failure end the initiator from anywhere, four the responder from the start of a pass and five from anywhere |
| Atomicity.RestartedResponderExact | core/wallet/swapper/immediate/immediate.go:107-114 | wherever restarts have led and however many are to come, a restarted responder can still finish if and only if it has not taken its coins back |
| Atomicity.AtomicWithRestarts | core/wallet/swapper/immediate/immediate.go:59-68 | atomicity survives any number of restarts of both daemons, the initiator's only while A is not refunded |
| Atomicity.RestartExact | core/wallet/swapper/swapper.go:84-116 | restarting an initiator that has refunded, with any calls and restarts to come, makes a violation reachable if and only if B has not been refunded |
| Atomicity.InitiatorRestartExact | core/wallet/swapper/swapper.go:84-116 | if the responder is never restarted again, it does so if and only if B is open or the responder can still open it |
| LenientAudit.EthereumOnly | core/wallet/swapper/immediate/immediate.go:70-124 | with neither contract on Bitcoin, the protocol with chain-dependent audits is the one above, restarts included |
| LenientAudit.AtomicOnBitcoin | adapter/binder/btc/btc.go:130-143 | whichever contracts are on Bitcoin, the swap stays atomic, and a reported refund means that B is not claimed, in every run in which no audit query of the initiator fails after the time lock on a claimed B and the initiator is never restarted after its refund |
| LenientAudit.LateFailureExact | adapter/binder/btc/btc.go:130-143 | after every such run, a query that fails after the time lock, and the refund that follows it, break atomicity if and only if B was claimed and A still open |
| LenientAudit.LateFailureHappens | adapter/binder/btc/btc.go:130-143 | a concrete run in which a claim that took effect returns an error, the next audit's query fails after the time lock, and A is refunded although B was claimed |
| LenientAudit.ExpiredReportExact | adapter/binder/btc/btc.go:130-143 | in every run, restarts included, a responder that reports Expired has nothing locked, if and only if the initiator's contract is not on Bitcoin |
| LenientAudit.FailedSecretExact | adapter/binder/btc/btc.go:216-222 | past the time lock, a responder whose query for the secret fails takes its coins back and is done if and only if its own contract is on Bitcoin |
| Contracts.HtlcContract.constructor | adapter/binder/eth/eth.go:52-66 | missing cost entries start at zero, recorded ones are kept, and the locked value includes the broker fee, for every broker fee |
| Contracts.HtlcContract.Submit | adapter/binder/eth/eth.go:86-112 | the record, the cost and the history after one submitted transaction, with cost still equal to what the history explains |
| Contracts.HtlcContract.Initiate | adapter/binder/eth/eth.go:70-125 | the account and success of funding, with approval for ERC20 and silent success when the precondition fails or cannot be read |
| Contracts.HtlcContract.Refund | adapter/binder/eth/eth.go:128-173 | the account and success of a refund, skipped silently unless open, due and readable |
| Contracts.HtlcContract.Redeem | adapter/binder/eth/eth.go:237-281 | the account and success of a claim; only the preimage closes the contract |
| Contracts.HtlcContract.Audit | adapter/binder/eth/eth.go:200-234 | passes if and only if funded, for us, with at least the agreed amount; waits before and expires after the time lock |
| Contracts.HtlcContract.AuditSecret | adapter/binder/eth/eth.go:176-197 | returns a secret if and only if the contract was claimed with it; waits or expires while open |
| CostLedger.CostConservation | adapter/binder/eth/eth.go:77-173 | over any sequence of calls with a counterparty acting in between, and for every broker fee, recorded cost is starting cost plus gas of everything submitted plus positive broker fees in minus broker fees out |
| CostLedger.BrokerFeeIffFundedAndNotRefunded | adapter/binder/eth/eth.go:91-155 | without reverted submissions a broker fee is on the books if and only if the contract is funded and not refunded; what a negative one leaves there instead |
| CostLedger.RepeatedInitiateIsFree | adapter/binder/erc20/erc20.go:93-101 | any number of further Initiate calls on an opened contract leave the account as it was |
| CostLedger.ApprovalComesFirst | adapter/binder/erc20/erc20.go:93-125 | over any sequence of calls, every funding of an ERC20 contract comes right after an approval, and a contract in ether is never approved |
| CostLedger.OnlyPreimageCloses | adapter/binder/eth/eth.go:128-281 | over any sequence of calls with an honest counterparty, a contract is closed with nothing but its preimage and refunded only by a call at or after the time lock |
| BtcAccount.BtcSwapContract.constructor | adapter/binder/btc/btc.go:46-67 | broker fees below the dust limit are raised to it and are part of the locked value; the Bitcoin cost starts at the recorded one or zero |
| BtcAccount.BtcSwapContract.Record | adapter/binder/btc/btc.go:116-118 | a confirmed transaction adds its miner fee and moves the broker fee, so that cost stays what the history explains |
| BtcAccount.BtcSwapContract.Initiate | adapter/binder/btc/btc.go:71-128 | pays exactly what is missing and never dust; what counts as success and when it is charged |
| BtcAccount.BtcSwapContract.Audit | adapter/binder/btc/btc.go:130-143 | a failed query counts as not funded, and the audit passes if and only if the contract is funded with at least the agreed amount |
| BtcAccount.BtcSwapContract.Redeem | adapter/binder/btc/btc.go:147-213 | an unredeemed contract is paid out if and only if at least 600 satoshi are left for the claimant; outputs add up to the contract's amount less the miner fee, and are all large enough to be relayed if and only if there is a broker fee |
| BtcAccount.BtcSwapContract.Refund | adapter/binder/btc/btc.go:245-295 | pays everything but the miner fee back, with the time lock cut to 32 bits, and takes the broker fee off the books |
| BtcAccount.ShortfallExact | adapter/binder/btc/btc.go:93-104 | after a successful Initiate the counterparty's audit passes if and only if the missing amount was not 1 to 599 satoshi |
| BtcAccount.AcceptedIsPaidOut | adapter/binder/btc/btc.go:71-187 | whatever the balance check lets through and Initiate funds is paid out by the claim, at the default miner fee, if and only if the broker fee is between -100 and 88.69 percent |
| ScriptNum.RoundTrip | adapter/binder/btc/script.go:62 | decoding a script number undoes encoding, for every integer |
| ScriptNum.EncodeFitsFiveBytes | adapter/binder/btc/script.go:62-63 | lock times a transaction can reach fit the five bytes OP_CHECKLOCKTIMEVERIFY reads |
| Script.AsBoolExact | adapter/binder/btc/script.go:48 | a flag is false if and only if it stands for the number zero, of either sign |
| HtlcScript.ScriptExact | adapter/binder/btc/script.go:45-74 | for every witness stack the contract succeeds if and only if it is a claim with preimage, key and signature or a refund after the lock with key and signature |
| BtcContract.ParseAssemble | adapter/binder/btc/script.go:46-73 | parsing gives back every program the builder can write |
| BtcContract.NewInitiateScript | adapter/binder/btc/script.go:45-74 | appending opcode by opcode produces the bytes of the contract program |
| BtcContract.NewRedeemScript | adapter/binder/btc/script.go:84-92 | the claim input is built if and only if no element is oversized, and is the claim program |
| BtcContract.NewRefundScript | adapter/binder/btc/script.go:101-108 | the refund input is built if and only if no element is oversized, and is the refund program |
| ContractBytes.ContractScriptBytes | adapter/binder/btc/script.go:45-74 | the contract script, byte for byte, with hashes, key hashes and lock time in their places |
| ContractBytes.PushBytes | adapter/binder/btc/script.go:86-90 | an element is pushed in the shortest form, with one byte of length up to 75 bytes, OP_PUSHDATA1 up to 255 and OP_PUSHDATA2 above |
| ContractBytes.LockBytes | adapter/binder/btc/script.go:62 | a lock time of this era is written as a length byte and four bytes, the lowest first |
| ContractBytes.InputBytes | adapter/binder/btc/script.go:84-108 | the claim and the refund input, byte for byte |
| Spending.RedeemInputExact | adapter/binder/btc/script.go:84-92 | through pay-to-script-hash, the claim input spends the contract if and only if secret, key and signature are right |
| Spending.RefundInputExact | adapter/binder/btc/script.go:101-108 | the refund input spends the contract if and only if the lock is reached and key and signature are right |
| Spending.RefundTiming | adapter/binder/btc/btc.go:262-278 | the refund transaction passes for exactly the time locks in [0, 2^32), and the refund input of a transaction with a smaller lock time never does |
| Spending.OnlyClaimsBeforeExpiry | adapter/binder/btc/btc.go:262-278 | in a transaction with a smaller lock time, or one of the other kind, or with a final input, every input that passes at all is a claim |
| Spending.AuditSecret | adapter/binder/btc/btc.go:229-241 | the loop over the pushes returns the first push with the wanted hash, cut or padded to 32 bytes |
| Spending.FirstMatchExact | adapter/binder/btc/btc.go:233-241 | the search finds the first push with the wanted hash whenever there is one, and nothing else |
| Spending.PushedDataExact | adapter/binder/btc/btc.go:229-233 | the loop goes over exactly the data pushes and the empty ones |
| Spending.SecretRoundTrip | adapter/binder/btc/btc.go:194-241 | for every input the contract accepts as a claim, the loop returns exactly the 32-byte secret used |
| Spending.OwnClaimIsAudited | adapter/binder/btc/btc.go:194-241 | the loop recovers from the daemon's own accepted claim the very secret the claim was built with |
| Spending.SecretOpensOther | adapter/binder/btc/btc.go:194-241 | the secret recovered from one contract spends every other contract with the same hash |
| Passes.PassIsRun | core/wallet/swapper/immediate/immediate.go:59-124 | one pass is a run of the protocol of at most four steps of its own daemon |
| Passes.IniOutcomeIsPass | core/wallet/swapper/immediate/immediate.go:70-91 | straight-line `initiate` and its protocol run leave the same records, status and end |
| Passes.ResOutcomeIsPass | core/wallet/swapper/immediate/immediate.go:93-124 | straight-line `respond` and its protocol run leave the same records, status and end |
| Passes.PassEndsRight | core/wallet/swapper/immediate/immediate.go:126-138 | a pass removes the swap if and only if it reports Redeemed, Refunded or Expired |
| Passes.CleanPassErrors | core/wallet/swapper/immediate/immediate.go:70-138 | a pass in which nothing goes wrong reports an error if and only if the swap has expired unfunded or the responder has its own coins back already |
| Passes.LastPass | core/wallet/swapper/immediate/immediate.go:70-138 | a pass after the time lock in which nothing goes wrong ends the swap and removes it, for the responder exactly unless it has its own coins back on a funded swap |
| Secrets.SecretExact | core/wallet/swapper/immediate/immediate.go:70-71 | for IDs of one length, and without a collision between the two, secrets are the same if and only if password and ID are |
| Secrets.OneSecretEach | core/wallet/swapper/immediate/immediate.go:70-71 | two swaps of one password share a secret if and only if they have the same ID, whatever its length |
| Secrets.LengthMatters | adapter/server/handler.go:533-535 | a password and ID, and another password and ID, that have the same secret under every hash |
| Secrets.HashExact | adapter/server/handler.go:353-363 | two accepted swaps, delayed or not, are locked with the same hash if and only if they are one swap of one owner |
| Secrets.SecretOpensOnlyItsOwn | adapter/server/handler.go:353-363 | the secret of one accepted swap is in no claim witness of any other swap's contract |
| Secrets.OtherContractStaysLocked | adapter/binder/btc/script.go:84-92 | the claim input built with one swap's secret does not spend another swap's Bitcoin contract |
| Interleaving.TurnsAreRun | core/wallet/swapper/immediate/immediate.go:51-124 | any number of passes of both daemons, interleaved call by call or pass by pass with time going by, are one run of the protocol |
| Interleaving.PassesAreAtomic | core/wallet/swapper/immediate/immediate.go:51-124 | no such history of repeated passes ends with one contract claimed and the other refunded |
| Interleaving.PassAnywhere | core/wallet/swapper/immediate/immediate.go:59-124 | a pass that starts anywhere in such a history, on the records the two contracts then have, leaves the records, status and end its straight-line outcome says |
| Immediate.Swapper.InitiateCalls | core/wallet/swapper/immediate/immediate.go:70-91 | the calls of `initiate` on the two contract objects have the outcome of the protocol run |
| Immediate.Swapper.Initiate | core/wallet/swapper/immediate/immediate.go:70-91 | an initiator's pass, with the secret derived from password and ID, leaves records, messages and map as its protocol run says |
| Immediate.Swapper.RespondCalls | core/wallet/swapper/immediate/immediate.go:93-124 | the calls of `respond` on the two contract objects have the outcome of the protocol run |
| Immediate.Swapper.Respond | core/wallet/swapper/immediate/immediate.go:93-124 | a responder's pass leaves records, messages and map as its protocol run says |
| Immediate.Swapper.HandleResult | core/wallet/swapper/immediate/immediate.go:126-138 | the receipt carries both costs, errors are forwarded, and a final status removes the entry and asks for deletion |
| Immediate.Swapper.HandleSwap | core/wallet/swapper/immediate/immediate.go:59-68 | handling one request changes map and messages as the task system says for that pass, and a request that stays keeps the costs it had, with what the pass added |
| Immediate.Swapper.HandleTick | core/wallet/swapper/immediate/immediate.go:51-57 | whatever the iteration order, a tick leaves exactly the requests whose pass did not finish |
| CostLedger.GasOnlyGrows | core/wallet/swapper/immediate/immediate.go:126-138 | from pass to pass recorded gas never shrinks and no other token's cost changes |
| Immediate.Swapper.Reduce | core/wallet/swapper/immediate/immediate.go:39-49 | a message from the parent, a request or a tick, is the immediate child's turn in the task system |
| TickLoops.EveryRequestOnce | core/wallet/swapper/immediate/immediate.go:51-57 | each request present at the start of a walk is handled once although the map changes, and the survivors keep their own ID |
| Delayed.DelayedSwapper.HandleDelayedSwapRequest | core/wallet/swapper/delayed/delayed.go:47-64 | a fill or cancellation removes the request, anything else keeps it; a fill is sent on as the broker made it, with the password put back |
| Delayed.DelayedSwapper.HandleCancelSwap | core/wallet/swapper/delayed/delayed.go:66-73 | a cancellation forgets the swap, marks it cancelled and asks for deletion |
| Delayed.DelayedSwapper.HandleUpdateSwap | core/wallet/swapper/delayed/delayed.go:75-83 | a fill forgets the swap here, enters its amounts and time lock in the receipt and sends it on |
| Delayed.DelayedSwapper.HandleTick | core/wallet/swapper/delayed/delayed.go:37-45 | a tick asks about every waiting swap once and leaves exactly those without a final answer |
| Delayed.DelayedSwapper.Reduce | core/wallet/swapper/delayed/delayed.go:26-35 | a message from the parent, a request or a tick, is the delayed child's turn in the task system |
| Callback.DelayCallback | adapter/callback/callback.go:21-53 | which HTTP answers are a fill, a cancellation, nothing yet or an error |
| Callback.FillIsForwarded | core/wallet/swapper/delayed/delayed.go:47-54 | of an accepted fill, nothing the broker filled in is lost on the way to the parent, and the receipt gets its amounts and time lock |
| Callback.FillIsStored | core/wallet/swapper/swapper.go:69-82 | the fill is stored without its password in place of the offer and sent on to be executed |
| Callback.FillIsExecuted | adapter/binder/binder.go:86-184 | the contracts built for it are in the filled tokens, for the filled amounts and time lock, send no more than was offered and receive no less than the minimum |
| TaskSystem.StepInv | core/wallet/swapper/swapper.go:38-123 | every action, storage errors and crashes included, keeps single ownership, matching rows and bootload order, if no password seen opens somebody else's swap |
| Ticks.EveryWaitingSwapIsAsked | core/wallet/swapper/delayed/delayed.go:37-64 | under every schedule without a crash, once the tasks have come to a tick, every swap in the delayed map is put to the broker, and a fill, a cancellation or an error is passed on |
| Ticks.EveryLiveSwapGetsAPass | core/wallet/swapper/immediate/immediate.go:51-68 | likewise every swap in the immediate map gets a pass, and its outcome is reported |
| Ticks.TickReachesParent | core/wallet/swapper/swapper.go:38-61 | a posted tick comes up after exactly the messages that were in the inbox |
| Ticks.TickReachesChild | core/wallet/swapper/swapper.go:63-67 | handled by the parent, it comes up in either child after exactly what was in that child's queue |
| Recovery.SingleOwnership | core/wallet/swapper/delayed/delayed.go:47-83 | in every reachable state each swap has at most one live request across all queues and both maps |
| Recovery.LiveRequestsAreRows | core/wallet/swapper/swapper.go:69-82 | every live request equals its pending row apart from the password, which is its owner's; no row has a password |
| Recovery.PhasesOnlyAdvance | core/wallet/swapper/swapper.go:38-123 | from any state with the invariant, phases never go back, owners never change, finished swaps stay finished |
| Recovery.RowHistory | core/wallet/swapper/swapper.go:69-123 | rows move only from delayed to immediate, leave only after a final message, and never come back |
| Recovery.DeletionsFollowTerminalStatus | core/wallet/swapper/immediate/immediate.go:126-135 | a deletion is sent only with a Redeemed, Refunded, Expired or Cancelled status for the same swap |
| Recovery.ReleasedForGood | core/wallet/swapper/swapper.go:118-123 | a released swap is not worked on again in the same process even if deleting its row failed |
| Recovery.BootloadRebuilds | core/wallet/swapper/swapper.go:84-116 | in every reachable state in which a bootload is handled, the rows its password opens had no live request and get one each, equal to the row; nothing of anybody else's changes |
| Recovery.CrashRecovery | core/wallet/swapper/swapper.go:69-116 | every request held before a crash is rebuilt unchanged, password included, when its owner's bootload is handled, whatever happened in between, further crashes included |
| Recovery.EveryRowIsServed | core/wallet/swapper/swapper.go:69-116 | without storage errors and unbuildable contracts, restarts included, every stored swap of a bootloaded owner has exactly one live request or final message |
| Recovery.UnbuiltIsReleased | core/wallet/swapper/immediate/immediate.go:59-63 | a queued request whose contracts cannot be built is worked on no more, although its row stays |
| LateBootload.LateBootloadExact | adapter/server/handler.go:185-197 | from every reachable state, posting a swap leaves every swap with one live request in all futures if and only if its owner's bootload was delivered before |
| SwapperTask.Parent.HandleSwapRequest | core/wallet/swapper/swapper.go:69-82 | on the byte store, storing and routing a swap is the parent's step of the task system, and carries the recorded costs |
| SwapperTask.Parent.HandleBootload | core/wallet/swapper/swapper.go:84-116 | the walk over the scanned rows is the task system's resend, activates exactly the receipts of rows with no hash or one that matches, and is complete unless the last identifier is in use |
| SwapperTask.Parent.HandleDeleteSwap | core/wallet/swapper/swapper.go:118-123 | deleting a row of the byte store is the task system's deletion |
| SwapperTask.Parent.HandleTick | core/wallet/swapper/swapper.go:63-67 | a tick is appended to both children's queues |
| SwapperTask.Parent.ReduceUp | core/wallet/swapper/swapper.go:38-61 | every message of a child is handled as in the task system, and receipts, errors and the store's errors are passed on |
| SwapperTask.ScanNames | core/wallet/swapper/swapper.go:85-91 | the scanned rows name every pending swap once if and only if the last identifier is not among them |
| Store.PutRefines | adapter/db/db.go:14-26 | writing a key of one table writes that table's map and no other |
| Store.DeleteRefines | adapter/db/db.go:71-77 | deleting a key of one table deletes from that table's map and no other |
| Store.RangeExact | adapter/db/db.go:19-25 | a key lies in a table's scan range if and only if it belongs to the table and is not its last possible key |
| Database.ScanIsComplete | adapter/db/db.go:95-108 | a scan lists the whole table if and only if the last identifier is not stored |
| Database.CostsSurvive | adapter/db/swapper.go:78-84 | costs written into a receipt are loaded back, token by token |
| Database.BothSpellings | adapter/db/wallet.go:66-78 | the hexadecimal spelling of 32 bytes names their row with and without 0x |
| Database.TxHashExact | adapter/db/wallet.go:66-78 | a transaction hash names a row if and only if its digits spell the row's 32 bytes, in either case |
| Database.Db.PutSwap | adapter/db/db.go:55-69 | the pending row is written before the swap row, both without password, other tables untouched, for every combination of failures |
| Database.Db.DeletePendingSwap | adapter/db/db.go:71-77 | only the pending row goes |
| Database.Db.PendingSwap | adapter/db/db.go:79-93 | reads exactly the pending row, which has no password |
| Database.Db.Scan | adapter/db/db.go:95-108 | the iterator yields exactly one table's rows in ascending key order, the last key aside |
| Database.Db.PendingSwaps | adapter/db/db.go:95-108 | exactly the pending rows, in order |
| Database.Db.PutReceipt | adapter/db/swapper.go:12-22 | one receipt is written, other tables untouched |
| Database.Db.UpdateReceipt | adapter/db/swapper.go:24-43 | one receipt is replaced by its update; unknown swaps are an error and change nothing |
| Database.Db.Receipts | adapter/db/swapper.go:45-58 | exactly the receipts, in order |
| Database.Db.Receipt | adapter/db/swapper.go:60-76 | reads exactly the stored receipt |
| Database.Db.LoadCosts | adapter/db/swapper.go:78-84 | the costs of the stored receipt, or none |
| Database.Db.PutTransfer | adapter/db/wallet.go:18-28 | one transfer is written under its transaction hash |
| Database.Db.Transfers | adapter/db/wallet.go:30-43 | exactly the transfers, in order |
| Database.Db.UpdateTransferReceipt | adapter/db/wallet.go:45-64 | one transfer is replaced by its update |
| Decimal.ParsePrint | foundation/blockchain/cost.go:13-28 | reading a printed integer gives it back |
| Decimal.ParseExact | foundation/blockchain/cost.go:22-28 | exactly the strings of digits with at most one sign are numbers, and what they stand for |
| Costs.CostToCostBlob | foundation/blockchain/cost.go:13-19 | every token's cost is printed, and nothing else |
| Costs.CostBlobToCost | foundation/blockchain/cost.go:22-28 | every token's cost is read, unreadable ones as none |
| Costs.CostBlobRoundTrip | foundation/blockchain/cost.go:13-28 | the two conversions undo each other |
| Costs.GrossUpExact | foundation/blockchain/cost.go:75-77 | the grossed-up amount nets exactly the value, and every larger amount nets more |
| Amounts.LockedExact | adapter/server/handler.go:542-544 | for every amount and broker fee, what is locked is what was checked plus the dust bump, which stays below the dust limit if and only if the broker fee is not negative |
| Amounts.WithFeesIsValuePlusBrokerFee | adapter/server/handler.go:542-544 | the amount checked is exactly the value plus the broker fee the binder computes |
| Amounts.Solvency | adapter/wallet/amount.go:23-123 | a passed balance check covers the locked amount and the transaction fee of the swap and of every later fill that costs no more |
| Amounts.SolvencyExact | adapter/wallet/amount.go:23-123 | for every token, amount and broker fee, passing the check means being able to pay if and only if the fee is not negative on Bitcoin and the shared table holds a high enough fee on DGX, or the amount is turned down anyway |
| Amounts.FillTokenExact | adapter/wallet/amount.go:23-123 | for an offer that can pass, the check made for it covers every trustworthy fill that costs no more if and only if the fill is in the same token |
| Amounts.SmallerFillsCostNoMore | adapter/server/handler.go:542-544 | sending less never costs more if and only if the broker pays out at most the amount |
| Amounts.RecentEntryIsEnough | foundation/blockchain/cost.go:64-77 | a DGX check after a cost computation for at least as much can be trusted |
| Amounts.CheckIsExact | adapter/wallet/amount.go:23-92 | on Ethereum and ERC20 the check passes if and only if the wallet covers the swap |
| Amounts.BitcoinCheckIsExact | adapter/wallet/amount.go:94-123 | on Bitcoin it passes if and only if at least 20000 satoshi are swapped and the wallet also covers what the dust limit exceeds the bump by |
| Amounts.SendCheckExact | adapter/wallet/amount.go:23-123 | what the check of an amount asks for on each chain, in numbers |
| Amounts.ReceiveCheckExact | adapter/wallet/amount.go:23-97 | the check without an amount passes if and only if the wallet has the gas for one transaction in ether, and on Bitcoin always |
| Amounts.DgxLocksMore | foundation/blockchain/cost.go:64-77 | how much more than the amount with fees a DGX contract pulls in, and that it nets that amount |
| PriceCheck.VerifyDelaySwap | adapter/callback/callback.go:55-91 | which fills are accepted, with exactly which error otherwise, and that acceptance clears the delay flag |
| PriceCheck.MinimumExact | adapter/callback/callback.go:55-83 | of the fills at an acceptable price and size, exactly those that receive at least the minimum are accepted; an unreadable minimum is zero |
| PriceCheck.MinimumMatters | adapter/callback/callback.go:81-83 | no fill below the minimum is accepted, and the offer itself is one if and only if it asks for the minimum |
| PriceCheck.FavourableIsPreorder | adapter/callback/callback.go:81-87 | the test is reflexive and transitive |
| PriceCheck.NeverAWorseRate | adapter/callback/callback.go:85-87 | the cross-multiplied test holds if and only if the rate is at least the offered one and no more is sent |
| PriceCheck.RaisingReceive | adapter/callback/callback.go:81-90 | accepted fills stay accepted when their receive amount rises, if and only if the offered send amount is not negative or no fill is accepted at all |
| PriceCheck.LoweringSend | adapter/callback/callback.go:81-90 | accepted fills stay accepted when their send amount drops, if and only if the offer's receive amount is not negative |
| Binder.OneTimeLock | adapter/binder/binder.go:76-195 | both contracts get the blob's time lock and hash, never the staggered locks that are computed |
| Binder.OwnSides | adapter/binder/binder.go:89-184 | which addresses fund, claim and are paid on each side, which must verify, and that each side pays the miner fee the swap names for it, or the default of its chain |
| Binder.BuildExact | adapter/binder/binder.go:76-195 | the contracts are built if and only if both tokens are known, both amounts and the hash can be read, a broker who takes a fee has addresses, and the wallet has both of its own |
| Binder.AgreedTerms | adapter/binder/binder.go:86-184 | each contract is built in the swap's token, for its amount and the broker's share of it, under its ID, hash and time lock |
| Binder.BuildInitiateScript | adapter/binder/btc/script.go:123-152 | a script is built if and only if both addresses decode, and is the contract script of the swap's terms |
| Binder.ScriptDeterminesTerms | adapter/binder/btc/script.go:123-152 | two contracts have the same script if and only if they agree on parties, lock time and hash |
| Handler.BothCanBuild | adapter/server/handler.go:442-477 | the responder can build its contracts if and only if the initiator can and the responder's wallet has the addresses |
| Handler.Mirror | adapter/server/handler.go:442-477 | each daemon's native contract is the other's foreign one if and only if the named addresses are the responder's own |
| Handler.MirrorScripts | adapter/server/handler.go:442-477 | both daemons then derive the same Bitcoin script terms |
| Handler.PatchedHash | adapter/server/handler.go:353-363 | a patched initiator's or delayed swap carries the hash of the secret a pass derives, and six hours of time |
| Handler.InitiatorCanClaim | adapter/server/handler.go:353-363 | end to end, the derived secret spends the Bitcoin contract the responder builds from the response |
| Handler.AcceptedExact | adapter/server/handler.go:322-375 | a swap is accepted if and only if its addresses are on the right chains, the wallet can pay on the one and claim on the other, and a responder's has a readable hash and four hours left; only ID, time lock and hash are set, and a late or unaffordable one is turned down as such |
| Handler.DelayedAcceptedExact | adapter/server/handler.go:377-415 | a delayed swap is accepted if and only if it has a URL and the wallet can pay and claim |
| Handler.AcceptedSwapIsCovered | adapter/server/handler.go:322-350 | an accepted swap names valid addresses on the right chains, and the wallet covers what it will lock wherever the check can be trusted |
| Handler.AnswerExact | adapter/server/handler.go:442-490 | there is a response if and only if the wallet has both addresses, and it names a swap only for an initiator's |
| Handler.ResponseWindow | adapter/server/handler.go:365-374 | a response is accepted if and only if the responder's checks pass and it arrives within one expiry unit |
| Handler.AcceptedFillIsCovered | adapter/server/handler.go:377-415 | the balance checked for a delayed swap covers the native contract built from every later accepted fill in the same token with the same broker fee, wherever the check of the fill could be trusted |
| Handler.FillInAnotherToken | adapter/callback/callback.go:55-91 | a concrete offer in bitcoin that is posted, filled in ether and accepted, and that the wallet cannot pay |
| Handler.RequestHandler.Bootload | adapter/server/handler.go:313-320 | a password whose hash is not yet known is sent once, and a failed delivery leaves it unsent |
| Handler.RequestHandler.KnownExact | adapter/server/handler.go:313-320 | no password is sent twice, and one that shares its SHA-3 hash with no other is known if and only if it was sent |
| Handler.RequestHandler.PostSwaps | adapter/server/handler.go:185-197 | what is handed to the swapper, in which order, and what is answered, for every failure |
| Handler.RequestHandler.PostDelayedSwaps | adapter/server/handler.go:199-213 | the same for delayed swaps |
| Handler.OrderKept | adapter/server/handler.go:185-213 | swaps keep following their bootload if and only if the bootload was delivered by this or an earlier request |
| Handler.OutboxAccepted | adapter/server/handler.go:185-213 | the task system takes all of what the handler sent if and only if every swap in it follows its bootload |

## Left out

- HTTP server, JSON transport, callback networking, installers, logging, key storage: input and output.
- libbtc, beth, go-ethereum, leveldb, bcrypt, SHA and signatures: an abstract ledger, an ordered map and
  uninterpreted functions; key derivation, address and hex decoding are parameters.
- Ethereum and ERC20 binders: one class with a flag for the ERC20 approval; the account of DGX's own transfer fee
  inside the contract is not tracked.
- Passes.Proper: the pass methods run over the Ethereum-style contract; with Bitcoin binders the protocol is modelled
  call by call (`LenientAudit`) and the binder's account by itself (`BtcAccount`).
- BtcAccount.BtcSwapContract.Initiate: 64-bit truncation of amounts and miner fees is not modelled, because Bitcoin
  amounts stay far below it; address decoding errors are not modelled.
- Aliasing of cost maps: a request and its binder share one Go map; here the binder's cost is written back into the
  request when the pass ends.
- CostLedger.CostConservation: gas is what the binder records (price times limit), not what the chain charges.
- HtlcScript.ScriptExact: size limits are modelled for pushed elements only; limits on script size and operation
  count, and policy flags beyond BIP 16 and BIP 65, are not.
- Handler.RequestHandler.PostSwaps: the signature over the response and posting it to a response URL are left out.
- BtcAccount.BtcSwapContract.constructor: the broker fee is unbounded; the program cuts it to 64 bits before it
  compares it with the dust limit.
- Database.Db.Scan: a value that fails to unmarshal is not modelled; only values written by the daemon are stored.
- SwapperTask.Parent.HandleBootload: a stored password hash that is not base64 is part of the comparison `matches`.
- Status task, transfer task, receipts shown to users, balances: they only pass on or show what the modelled parts
  store.
