# PAYE OFT bridge: a verified model

A Dafny 4.11 model of the Solana program `paye-oft`, which bridges the PAYE token between Solana and the other
chains of its LayerZero mesh, with proofs of what the program is for: rate limits that hold over whole runs,
fees that mean the same in local and in shared decimals, tokens that are neither created nor lost, messages
that survive two codecs, and control that only passes the way it is meant to.

`dafny verify dfyconfig.toml` checks everything.

## How it is built

Each entity exists twice. As a value (`Limiter`, `Store`, `Peer`, `Ledger`, `Mailbox`) it is what the chain
stores; as an object (`RateLimiter`, `OftStore`, `PeerConfig`, `TokenLedger`, `Endpoint`) it is what an
instruction updates in place. Every instruction's `Apply` method is proved equal to a function on values, and
`Runtime.Bank` runs it the way Anchor does: load the accounts, apply, write back only on success. `Bridge.Next`
is the resulting state machine; a `Run` is any finite sequence of its steps on a clock that does not go back,
and a `History` is a run from a freshly initialised Native store.

| files | content |
|---|---|
| `Primitives`, `Arithmetic` | machine integers, results, floor and ceiling division |
| `RateLimiter`, `LimiterTheory` | the token bucket; its refinement, closed form and progress |
| `Fees`, `FeeTheory` | decimals, protocol fee, Token-2022 fee; what they compute |
| `BigEndian`, `MsgCodec`, `ComposeMsgCodec` | the two wire formats and their inverses |
| `Accounts` | store, peer, token ledger, endpoint, and the surroundings `Env` |
| `InitOft`, `SendInstruction`, `LzReceiveInstruction`, `SetPeerConfig`, `StoreConfig`, `WithdrawFee`, `Quotes`, `Planner` | one file per instruction (`StoreConfig` holds the three that write the store) |
| `Bridge`, `Runtime` | the state machine and the runtime that implements it |
| `Balances`, `Invariants`, `Effects` | sums, the invariant, and what each step moves |
| `Conservation`, `NetFlow`, `LimiterHistory`, `Acceptance`, `EndToEnd`, `ControlHistory`, `Configuration`, `Waiting`, `LimiterLife`, `Messages`, `Frames` | the results over runs |
| `DustHistory` | a concrete history, built step by step |

## What is assumed

- The clock does not go back between steps (`IsRun`). Negative timestamps are allowed and read as 0, as in the
  program. What goes wrong on a backward clock is `LimiterTheory.SplitIdleExact`.
- The endpoint's `clear` succeeds only for a packet in flight and removes it, and a packet's sender is
  authentic. A member of the mesh that sends burns what the packet is worth; anybody else may send packets too
  (`StrangerSend`), worth nothing. Registered peers are members of the mesh; the store's own address signs no
  transaction; no member has the zero address (`Assumed`, `WellFormed`); clearing a peer with the zero address is
  allowed.
- The token program's burn, transfer and mint are the usual ones. Holders may transfer and burn their own
  tokens directly at any time, so conservation counts those burns. Only `lz_receive` mints.
- The post-fee side of a Token-2022 transfer fee is `Fees.WithheldFee`: nothing when the rate or the amount is
  0, otherwise the lesser of the maximum fee and the ceiling of amount x bps / 10000, with bps at most 10000.
- Outcomes of foreign calls are inputs: the nonce and guid of a dispatched packet or its refusal
  (`SendAccounts.dispatch`), acceptance of a compose message, of enforced options, of a delegate and of
  registration; address derivations and the combination of enforced with extra options are functions in `Env`.
- Account constraints are checked in the order of the fields. Anchor may handle `init_if_needed` accounts before
  the rest, so which error is named when several constraints fail at once is the model's choice; whether a
  delivery succeeds does not depend on it.

The conversion rate is any power of ten that fits in 64 bits (the arithmetic needs only that it is positive),
because the repository disagrees with itself: README.md says 4 decimals, lib.rs says 18 and 6, a comment in
init_oft.rs says the shared decimals must be 4, and the code checks only that the mint has at least the shared
decimals. The model follows the code.

At the 18 and 6 decimals that lib.rs documents, the rate is 10^12 and a 64-bit amount holds only 18446744 shared
units (some 18.4 tokens). A larger transfer that another chain sends here can never be received
(`Conservation.UndeliverableStays`, `Conservation.ConvertsAtEighteenDecimals`), and the other chain has burned it.

The repository's README.md promises that the combined supply of all chains is always the same fixed amount.
`Conservation.SupplyIsConserved` is that promise with the two terms it needs: tokens under way count, and
holders who burn their own tokens with the token program lower the total.

## Model

| member | source | states |
|---|---|---|
| `LimiterTheory.LazyRefinesTicking` | programs/paye-oft/src/state/peer_config.rs:36-71 | over every schedule of refills, attempts (rolled back or not), rate and capacity changes on a forward clock, the lazy saturating limiter gives the same answers as a bucket over unbounded integers that ticks once a second, and a later refill finds that bucket's level |
| `LimiterTheory.CallRefines` | programs/paye-oft/src/state/peer_config.rs:36-71 | the simulation step behind it: each call keeps limiter and bucket in agreement and answers alike |
| `LimiterTheory.TokensAreLeastWindow` | programs/paye-oft/src/state/peer_config.rs:49-71 | after any history of traffic `tokens` equals the least, over all starting points, of what a window starting there allows, and some window attains it |
| `LimiterTheory.ClosedForm` | programs/paye-oft/src/state/peer_config.rs:49-71 | the same closed form at any later moment, rolled-back rejections included: the least window level or the capacity |
| `LimiterTheory.RejectionMeansExhaustion` | programs/paye-oft/src/state/peer_config.rs:62-71 | an attempt is rejected if and only if the amount exceeds the capacity or some window of the history is exhausted |
| `LimiterTheory.ConsumeIsExact` | programs/paye-oft/src/state/peer_config.rs:62-71 | acceptance if and only if the amount is at most min(capacity, tokens + rate x elapsed) in unbounded integers, and the exact level left |
| `LimiterTheory.RefillIsExact` | programs/paye-oft/src/state/peer_config.rs:49-60 | every saturation in a refill is absorbed by the capacity |
| `LimiterTheory.WaitingTime` | programs/paye-oft/src/state/peer_config.rs:62-71 | with a positive rate, acceptance if and only if the amount is within capacity and the missing tokens over the rate, rounded up, have elapsed |
| `LimiterTheory.LevelOnlyGrows` | programs/paye-oft/src/state/peer_config.rs:49-71 | over any forward schedule in which nothing is consumed (refills of any size, refused attempts rolled back or not) what may pass at a later time never falls below what the untouched limiter would let pass then |
| `LimiterTheory.AcceptedAfterWait` | programs/paye-oft/src/state/peer_config.rs:62-71 | after any such schedule an amount within capacity is accepted once the missing tokens over the rate, rounded up, have elapsed |
| `LimiterTheory.NeverAboveCapacity` | programs/paye-oft/src/state/peer_config.rs:62-71 | an amount above the capacity is refused at every point of every schedule, on any clock, that does not set the capacity |
| `LimiterTheory.IdleRefillsCollapse` | programs/paye-oft/src/state/peer_config.rs:49-60 | any number of idle refills on a forward clock amounts to the last alone |
| `LimiterTheory.SplitIdleExact` | programs/paye-oft/src/state/peer_config.rs:52-58 | an intermediate idle refill changes nothing if and only if the clock did not turn round between the three times or there was nothing to gain |
| `LimiterTheory.BackwardClockCreditsTwice` | programs/paye-oft/src/state/peer_config.rs:52-58 | the concrete schedule in which a clock that steps back credits six seconds twice |
| `LimiterTheory.EveryOperationBounds` | programs/paye-oft/src/state/peer_config.rs:36-71 | every operation leaves at most `capacity` tokens, on any clock |
| `RateLimiters.RateLimiter.Refill` | programs/paye-oft/src/state/peer_config.rs:49-60 | the in-place refill, for every clock and every starting state |
| `RateLimiters.RateLimiter.TryConsume` | programs/paye-oft/src/state/peer_config.rs:62-71 | the in-place attempt; a rejected one has already refilled the limiter in memory |
| `RateLimiters.RateLimiter.SetRate` | programs/paye-oft/src/state/peer_config.rs:36-40 | accrual at the old rate up to now, then the new rate |
| `RateLimiters.RateLimiter.SetCapacity` | programs/paye-oft/src/state/peer_config.rs:42-47 | a full bucket of the new capacity, from now |
| `LimiterTheory.OnAnyClock` | programs/paye-oft/src/state/peer_config.rs:36-71 | each of the four methods on any timestamp, negative ones counting as 0: it starts from min(capacity, tokens + rate x seconds since the last refill) in unbounded integers, none on a clock that went back, and the timestamp becomes the limiter's time |
| `NetFlow.NetFlowBound` | programs/paye-oft/src/instructions/send.rs:75-82 | in any window of any history of the bridge in which no successful step sets the limiter's capacity or removes it (refused attempts count for nothing), what passes the peer in its direction less what passes back is at most the capacity plus the rate integrated over the window; both directions |
| `NetFlow.WindowFollows` | programs/paye-oft/src/instructions/lz_receive.rs:117-122 | the sharper inductive form over the same windows: the slack never shrinks, with the levels at both ends |
| `NetFlow.PassIsExact` | programs/paye-oft/src/instructions/send.rs:75-82 | traffic takes exactly its amount from one limiter and gives exactly that to the other, up to its capacity |
| `NetFlow.UpdateFollows` | programs/paye-oft/src/instructions/set_peer_config.rs:79-97 | an update that sets no capacity leaves what could be consumed now exactly as it was |
| `LimiterHistory.LimiterIsBucket` | programs/paye-oft/src/instructions/lz_receive.rs:117-122 | over any window of any history in which no successful step removes the limiter, what may pass next is exactly the level of a bucket that ticked once a second and saw exactly the traffic and configuration that went through, every consumption accepted; both directions |
| `LimiterLife.LimiterIsBucketSinceInstalled` | programs/paye-oft/src/instructions/set_peer_config.rs:79-97 | from the history alone: whatever limiter a peer has, some step installed it and none removed it since, and what may pass is exactly the level of the bucket that step made, ticking once a second, after exactly the traffic and limit changes that went through |
| `LimiterLife.WasInstalled` | programs/paye-oft/src/instructions/set_peer_config.rs:79-97 | every limiter of every history was installed by a successful write of limits to a peer that had none in that direction, and not removed since |
| `LimiterLife.RunInstalls` | programs/paye-oft/src/instructions/set_peer_config.rs:84-91 | first limits make a full bucket of the capacity given, or 0, at the rate given, or 0, from the time of the write |
| `LimiterHistory.WindowRan` | programs/paye-oft/src/instructions/send.rs:75-82 | over the same windows, the limiter at the end is the one at the start after exactly the calls that the successful steps imply |
| `LimiterHistory.UpdateRan` | programs/paye-oft/src/instructions/set_peer_config.rs:79-97 | a limiter update is its capacity change followed by its rate change |
| `Waiting.AllowedAfterWait` | programs/paye-oft/src/state/peer_config.rs:62-71 | over a history: a limiter lets an amount within its capacity pass once the wait computed at any earlier moment has gone by, whatever happened in between, if no step consumed from it or changed it |
| `Waiting.RefusedDeliveryPasses` | programs/paye-oft/src/instructions/lz_receive.rs:113-122 | a delivery refused as RateLimitExceeded, within capacity, is not refused for that again after the wait computed at its refusal, if no step between consumed from the limiter or changed it, and is received if everything else is in order |
| `Waiting.SendPassesAfterWait` | programs/paye-oft/src/instructions/send.rs:75-82 | under the same condition on the steps between, a send within capacity is sent after the wait if everything else is in order |
| `Waiting.NothingAboveCapacityPasses` | programs/paye-oft/src/state/peer_config.rs:62-71 | over a history: no transaction moves more than the capacity in force through a limiter at any later step until a successful step sets the capacity or removes the limiter |
| `FeeTheory.NativeInSharedUnits` | programs/paye-oft/src/instructions/quote_send.rs:102-120 | for Native with k = ld2sd(amount): sent = rate x k, fee = rate x floor(k bps / 10000), received = rate x ceil(k (10000 - bps) / 10000), they add up, and neither truncation nor underflow occurs |
| `FeeTheory.FeeOfWholeUnits` | programs/paye-oft/src/instructions/quote_send.rs:114-120 | fees in local decimals equal fees in shared decimals: the nested floors collapse and the u64 cast never truncates |
| `FeeTheory.NativeMonotone` | programs/paye-oft/src/instructions/quote_send.rs:102-120 | sending more never yields a smaller fee or less received |
| `FeeTheory.NativeDelivers` | programs/paye-oft/src/instructions/quote_send.rs:102-109 | below 100 % a positive send delivers at least one shared unit, and what it delivers converts back without loss or overflow |
| `FeeTheory.SplittingSavesAtMost` | programs/paye-oft/src/instructions/quote_send.rs:102-120 | splitting a dust-free total into n dust-free sends never raises the total fee and lowers it by at most n - 1 shared units |
| `FeeTheory.DustFreeIsWholeUnits` | programs/paye-oft/src/state/oft.rs:64-79 | removing dust yields the greatest multiple of the rate below the amount, which is the shared amount converted back, and is idempotent |
| `FeeTheory.SharedUnitsRoundTrip` | programs/paye-oft/src/state/oft.rs:64-74 | `sd2ld` fails exactly when the product does not fit, and otherwise `ld2sd` inverts it |
| `FeeTheory.PreFeeInvertsPostFee` | programs/paye-oft/src/instructions/quote_send.rs:130-152 | `calculate_pre_fee_amount(p)` is the least amount whose post-fee value reaches p, that value is exactly p, and the answer is None if and only if no 64-bit amount reaches p |
| `FeeTheory.PreFeeComputesLeast` | programs/paye-oft/src/instructions/quote_send.rs:130-152 | every checked 128-bit step succeeds; only the final fit in 64 bits can fail |
| `FeeTheory.LeastPreFeeIsLeast` | programs/paye-oft/src/instructions/quote_send.rs:130-148 | the threshold in unbounded integers: an amount reaches p if and only if it is at least this |
| `FeeTheory.PreFeeAboveWhole` | programs/paye-oft/src/instructions/quote_send.rs:130-148 | above 100 % the calculation refuses every positive amount and nothing else |
| `FeeTheory.AdapterIsStable` | programs/paye-oft/src/instructions/quote_send.rs:72-101 | the Adapter branch never fails (the error at line 94 is unreachable), never asks for more than offered, delivers received + fee exactly, and re-quoting its answer gives the same answer |
| `FeeTheory.AdapterInSharedUnits` | programs/paye-oft/src/instructions/quote_send.rs:72-101 | the exact amounts of the Adapter branch: of the whole shared units that arrive the fee is the share rounded down, the rest is received, and what is sent is the least amount of which they arrive |
| `Quotes.QuotedAmounts` | programs/paye-oft/src/instructions/quote_send.rs:61-109 | what any quote charges, for either bridge type: the peer's override or else the default, on whole shared units, with the least amount to send |
| `InitOft.InitAnswers` | programs/paye-oft/src/instructions/init_oft.rs:62-113 | every answer of `init_oft`, InvalidDecimals, overflow and the endpoint's refusal each exactly when, and every field it writes |
| `InitOft.InitSucceedsWhen` | programs/paye-oft/src/instructions/init_oft.rs:62-72 | initialisation succeeds if and only if the decimals differ by 0 to 19 and the endpoint registers the store; the rate is the power of ten between the scales |
| `InitOft.Apply` | programs/paye-oft/src/instructions/init_oft.rs:62-113 | the store written field by field equals the initial store, and every failure is reported |
| `Invariants.InitIsFresh` | programs/paye-oft/src/instructions/init_oft.rs:80-91 | a new Native store is unpaused, fee-free, with no TVL and nobody nominated; admin and developer come from the call |
| `MsgCodec.ParsesPrinted` | programs/paye-oft/src/msg_codec.rs:17-61 | the three decoders recover every field of every encoded message |
| `MsgCodec.PrintsParsed` | programs/paye-oft/src/msg_codec.rs:17-61 | every byte string of length 40 or at least 72 is the encoding of what the decoders read from it |
| `MsgCodec.PrintableLengths` | programs/paye-oft/src/msg_codec.rs:17-61 | the encodings are exactly the byte strings of those lengths; 41 to 71 have no preimage |
| `MsgCodec.PrintInjective` | programs/paye-oft/src/msg_codec.rs:17-37 | different messages have different bytes |
| `MsgCodec.LaysOut` | programs/paye-oft/src/msg_codec.rs:17-37 | the encoded bytes, place by place: recipient at 0, amount at 32 with the most significant byte first, then sender and payload or nothing |
| `MsgCodec.ReadsLayout` | programs/paye-oft/src/msg_codec.rs:39-61 | what the decoders read from any byte string whatever: those places, zeros for a field that is cut off |
| `MsgCodec.ReadSendTo` | programs/paye-oft/src/msg_codec.rs:39-45 | the local array holds the recipient, or zeros for a short message |
| `MsgCodec.ReadAmountSd` | programs/paye-oft/src/msg_codec.rs:47-53 | the decoded amount, or 0 for a short message |
| `MsgCodec.AppendMessage` | programs/paye-oft/src/msg_codec.rs:17-37 | the bytes appended piece by piece are the encoding |
| `ComposeMsgCodec.DecodesEncoded` | programs/paye-oft/src/compose_msg_codec.rs:16-63 | the five decoders recover nonce, source, amount, sender and payload, the empty payload included |
| `ComposeMsgCodec.EncodesDecoded` | programs/paye-oft/src/compose_msg_codec.rs:16-63 | any message of at least 52 bytes is the encoding of what the decoders read |
| `ComposeMsgCodec.ReadsWireTail` | programs/paye-oft/src/compose_msg_codec.rs:49-63 | for an arbitrary wire message, what the recipient reads after re-wrapping: bytes 40..72 and 72.. when there are 72, else the zero sender and no payload |
| `ComposeMsgCodec.LaysOut` | programs/paye-oft/src/compose_msg_codec.rs:16-23 | nonce at 0, source at 8 and amount at 12, each with the most significant byte first, and the rest from 20 |
| `ComposeMsgCodec.ReadsLayout` | programs/paye-oft/src/compose_msg_codec.rs:25-63 | what the five decoders read from any byte string whatever |
| `ComposeMsgCodec.ReadInteger` | programs/paye-oft/src/compose_msg_codec.rs:25-47 | the integer decoders' local array and zero default |
| `ComposeMsgCodec.ReadComposeFrom` | programs/paye-oft/src/compose_msg_codec.rs:49-55 | the sender, or zeros for a short message |
| `BigEndian.U64RoundTrip` | programs/paye-oft/src/msg_codec.rs:27-35 | 64-bit big-endian encoding and decoding are inverse both ways |
| `BigEndian.U32RoundTrip` | programs/paye-oft/src/compose_msg_codec.rs:16-39 | 32-bit big-endian encoding and decoding are inverse both ways |
| `BigEndian.U64Holds` | programs/paye-oft/src/msg_codec.rs:27-35 | byte i of eight counts multiples of 256 to the power 7 - i, written and read |
| `BigEndian.U32Holds` | programs/paye-oft/src/compose_msg_codec.rs:16-39 | byte i of four counts multiples of 256 to the power 3 - i, written and read |
| `Messages.SentPacket` | programs/paye-oft/src/instructions/send.rs:120-150 | the dispatched packet byte by byte: from this store to the peer's address, under the endpoint's nonce and guid, with recipient, amount in shared units, and signer and payload in their places; either bridge type |
| `Messages.ReceivedPacket` | programs/paye-oft/src/instructions/lz_receive.rs:96-155 | a delivery settles exactly the packet of its parameters and mints its units times the rate to the associated account, which the recipient named in the first 32 bytes owns |
| `Messages.HistoryComposes` | programs/paye-oft/src/instructions/lz_receive.rs:157-176 | a step hands the endpoint one compose message if it receives a wire message of more than 40 bytes and otherwise none: to the first 32 bytes, under the delivery's guid and index 0, carrying nonce, source, minted amount and everything after byte 40 |
| `Messages.ComposedIsHanded` | programs/paye-oft/src/instructions/lz_receive.rs:157-176 | in every history the endpoint holds exactly the compose messages of the deliveries received |
| `EndToEnd.ComposeRoundTrip` | programs/paye-oft/src/instructions/send.rs:120-150 | a send with payload m by signer s, received at the same rate, mints the receipt's received amount to the named recipient and forwards a compose message that reads as the packet's nonce, its source, that amount, s and m; there is one if and only if a payload was given |
| `SendInstruction.Apply` | programs/paye-oft/src/instructions/send.rs:61-161 | the in-place send equals its specification on success, in every account it writes, and reports the same error on failure |
| `SendInstruction.PassInPlace` | programs/paye-oft/src/instructions/send.rs:75-82 | both limiters updated in place, or the rejection |
| `SendInstruction.PayInPlace` | programs/paye-oft/src/instructions/send.rs:84-111 | the burn and the fee transfer, in order |
| `LzReceiveInstruction.Apply` | programs/paye-oft/src/instructions/lz_receive.rs:84-186 | the in-place receive, constraints included, equals its specification on success and reports the same error on failure |
| `LzReceiveInstruction.CheckInPlace` | programs/paye-oft/src/instructions/lz_receive.rs:27-76 | the account constraints and the creation of the recipient's token account |
| `LzReceiveInstruction.SettleInPlace` | programs/paye-oft/src/instructions/lz_receive.rs:113-176 | limits, mint and compose after the packet is cleared |
| `LzReceiveInstruction.ForwardInPlace` | programs/paye-oft/src/instructions/lz_receive.rs:157-176 | the compose message handed to the endpoint, or none |
| `SetPeerConfig.Apply` | programs/paye-oft/src/instructions/set_peer_config.rs:45-77 | each configuration change in place, with its authorisation and fee check |
| `SetPeerConfig.UpdateRateLimiter` | programs/paye-oft/src/instructions/set_peer_config.rs:79-97 | the limiter rebuilt on a clone: capacity first, then rate, or removed |
| `StoreConfig.ApplySetConfig` | programs/paye-oft/src/instructions/set_oft_config.rs:19-78 | each admin change in place; a refused one changes nothing |
| `StoreConfig.ApplySetPause` | programs/paye-oft/src/instructions/set_pause.rs:20-40 | pausing and unpausing by the signer in force only |
| `StoreConfig.ApplyAcceptAdmin` | programs/paye-oft/src/instructions/accept_admin.rs:16-40 | the pending admin, and nobody else, becomes admin and is no longer pending |
| `WithdrawFee.Apply` | programs/paye-oft/src/instructions/withdraw_fee.rs:35-69 | the in-place withdrawal equals its specification |
| `Quotes.QuoteOft` | programs/paye-oft/src/instructions/quote_oft.rs:23-57 | the quote with its conditionally built fee list equals its specification |
| `Quotes.ListFees` | programs/paye-oft/src/instructions/quote_oft.rs:36-50 | the fee list built by conditional pushes |
| `Quotes.BreakdownAddsUp` | programs/paye-oft/src/instructions/quote_oft.rs:36-50 | the listed fees sum to sent minus received, and the only errors are pause and slippage |
| `Quotes.QuoteAnswers` | programs/paye-oft/src/instructions/quote_oft.rs:23-57 | every answer of `quote_oft`: Paused, then SlippageExceeded, exactly when; otherwise limits 0 to u64::MAX and the token's and the protocol's fee, each in one line under its label if there is any |
| `Quotes.PricedAnswers` | programs/paye-oft/src/instructions/quote_send.rs:25-58 | every answer of `quote_send` before pricing: Paused, then SlippageExceeded, exactly when; otherwise the message holds recipient, local amount and, before a payload, 32 zeros |
| `Quotes.QuoteRefinesSend` | programs/paye-oft/src/instructions/quote_send.rs:25-58 | whenever a send succeeds, `quote_oft` gives the same receipt and `quote_send` prices a message of the same length, recipient and payload |
| `Quotes.PricedMessageIsSentWhen` | programs/paye-oft/src/instructions/quote_send.rs:43-48 | the priced message equals the sent one if and only if nothing is received or the rate is 1, and there is no payload or the signer is the default key |
| `Planner.Plan` | programs/paye-oft/src/instructions/lz_receive_types.rs:43-138 | the account list extended group by group equals its specification |
| `Planner.PlanFillsSlots` | programs/paye-oft/src/instructions/lz_receive.rs:21-80 | each of the plan's first 13 accounts is what the slot of `lz_receive` in that position admits, writable exactly where the instruction writes, the payer alone signing, also against a later state with the same initial data |
| `Planner.PlanAnswers` | programs/paye-oft/src/instructions/lz_receive_types.rs:43-138 | InvalidMessage and ArithmeticOverflow exactly when; otherwise the accounts for `clear`, then those for a compose message to the recipient with exactly the bytes of the layout, if there is a compose part |
| `Planner.PlanPassesConstraints` | programs/paye-oft/src/instructions/lz_receive_types.rs:58-111 | a plan made in one state passes every account constraint of `lz_receive` in another with the same initial data |
| `Planner.PlanAgreesWithExecution` | programs/paye-oft/src/instructions/lz_receive_types.rs:113-135 | the plan's remaining accounts split where `lz_receive` slices them, the second part derived from exactly the bytes that it forwards |
| `EndToEnd.PlanFitsSlotsLater` | programs/paye-oft/src/instructions/lz_receive.rs:21-80 | over a run: a plan made in any state fills the slots of `lz_receive` in every later one |
| `EndToEnd.PlanStaysValid` | programs/paye-oft/src/instructions/lz_receive_types.rs:113-135 | the same over a run: a plan made in any state fits a delivery at any later step |
| `Runtime.Bank.Execute` | programs/paye-oft/src/lib.rs:79-158 | loading accounts, running an instruction in place and writing back only on success is exactly one step of the state machine |
| `Bridge.RejectedChangesNothing` | programs/paye-oft/src/instructions/lz_receive.rs:96-155 | a failed instruction leaves everything but the clock unchanged |
| `Bridge.RunsExist` | programs/paye-oft/src/lib.rs:63-168 | every schedule of assumed steps on a forward clock can be run, so the theorems about runs are not vacuous |
| `Invariants.ActKeepsSane` | programs/paye-oft/src/lib.rs:79-158 | every step keeps the invariant: Native, no TVL, fees below 100 %, bounded limiters not ahead of the clock, the escrow the store's own, supply equal to the sum of accounts |
| `Invariants.ReachableConfiguration` | programs/paye-oft/src/instructions/set_peer_config.rs:50-55 | in every reachable state each fee in force is below 10000 bps and every limiter holds at most its capacity |
| `Invariants.RunKeepsFixed` | programs/paye-oft/src/instructions/init_oft.rs:71-80 | nothing written only at initialisation changes in any run |
| `Invariants.PayMoves` | programs/paye-oft/src/instructions/send.rs:84-111 | a payment burns what is received, moves the fee to escrow and touches no other account |
| `Invariants.ReceiveMoves` | programs/paye-oft/src/instructions/lz_receive.rs:124-155 | a receipt mints exactly its amount to the recipient's account and touches no other |
| `Frames.StepFrames` | programs/paye-oft/src/lib.rs:79-158 | a step changes only what its outcome names: traffic only the ledger, the mailbox and the limiters of one peer, configuration only one peer or the store, a withdrawal only the ledger, a refused step nothing |
| `Frames.HistoryGains` | programs/paye-oft/src/instructions/send.rs:84-111 | in every history no token account changes hands and each step moves the balance of every account by exactly what its outcome says |
| `Effects.SentAmounts` | programs/paye-oft/src/instructions/send.rs:120-150 | the dispatched packet is worth exactly what was burned, holds at least one unit unless nothing was sent, converts back without overflow, and goes from this store to the registered peer |
| `Effects.ReceivedAmounts` | programs/paye-oft/src/instructions/lz_receive.rs:96-122 | a delivered packet was in flight, came from a mesh member, is gone, and is worth what is minted |
| `Conservation.SupplyIsConserved` | programs/paye-oft/src/instructions/send.rs:84-150 | in every reachable state Solana supply, supply elsewhere and the worth in flight add up to the initial supply elsewhere less what holders burned directly |
| `Conservation.PacketsSettleOnce` | programs/paye-oft/src/instructions/lz_receive.rs:96-111 | each packet has been dispatched exactly as often as it has been settled plus its copies in flight: none settles twice, none is lost |
| `Conservation.DeliveryMintsWorth` | programs/paye-oft/src/instructions/lz_receive.rs:113-155 | a delivery mints exactly the packet's worth to the recipient and nothing to anybody else |
| `Conservation.RefusedStaysInFlight` | programs/paye-oft/src/instructions/lz_receive.rs:96-122 | a refused packet stays in flight with nothing changed |
| `Conservation.UndeliverableStays` | programs/paye-oft/src/instructions/lz_receive.rs:96-122 | a packet for this chain whose amount exceeds u64::MAX / rate shared units, that is under 40 bytes, or that no member sent stays in flight for good: no later state of any history has fewer copies of it |
| `Conservation.ConvertsUpTo` | programs/paye-oft/src/state/oft.rs:64-79 | shared units convert if and only if they are at most u64::MAX / rate |
| `Conservation.ConvertsAtEighteenDecimals` | programs/paye-oft/src/lib.rs:32-34 | with 18 local and 6 shared decimals the bound is 18446744 shared units |
| `Conservation.SupplyInUnitsWhen` | programs/paye-oft/src/instructions/send.rs:84-111 | in every reachable state the supply is a multiple of the rate if and only if what holders burned directly is |
| `DustHistory.LeavesDust` | programs/paye-oft/src/instructions/send.rs:84-111 | for every rate above 1 a concrete history of four steps ends with a supply that is no multiple of the rate |
| `Conservation.BooksBalance` | programs/paye-oft/src/instructions/withdraw_fee.rs:36-66 | in every reachable state the supply is the sum of all token accounts and, with direct burns added back, a multiple of the rate; TVL is 0; the escrow holds exactly fees plus deposits less withdrawals, so withdrawals never exceed fees plus deposits |
| `Conservation.WithdrawRefusedWhen` | programs/paye-oft/src/instructions/withdraw_fee.rs:38-44 | the subtraction never fails: the admin's withdrawal is refused as InvalidFee if and only if it exceeds the escrow balance |
| `Conservation.WithdrawMovesFee` | programs/paye-oft/src/instructions/withdraw_fee.rs:53-66 | a withdrawal is the admin's and moves exactly the fee from escrow to the named account |
| `Conservation.EscrowFallsOnlyByWithdrawal` | programs/paye-oft/src/instructions/withdraw_fee.rs:34-69 | in every history tokens leave the escrow only in a withdrawal, by its amount |
| `Acceptance.SendAnswers` | programs/paye-oft/src/instructions/send.rs:61-150 | every answer of a send, for either bridge type: accounts, pause, minimum, limiter, balance, store account and endpoint with options decide in this order, each refusal exactly when, and otherwise it is sent |
| `Acceptance.ReceiveAnswers` | programs/paye-oft/src/instructions/lz_receive.rs:27-176 | every answer of a delivery in a reachable state: accounts, length, pause, accounts for `clear`, packet, overflow, limiter, mint authority, supply and compose message decide in this order, and otherwise it is received |
| `Acceptance.UnknownPeerAnswers` | programs/paye-oft/src/instructions/send.rs:20-26 | traffic with a chain that was never configured fails on the missing peer account |
| `Acceptance.WithdrawAnswers` | programs/paye-oft/src/instructions/withdraw_fee.rs:35-66 | every answer of a withdrawal, for either bridge type: admin, accounts, and the balance above what is locked decide in this order, and otherwise it goes through |
| `Acceptance.SendSucceedsWhen` | programs/paye-oft/src/instructions/send.rs:61-150 | a send to a configured peer succeeds if and only if the sender brings the right accounts, the bridge is unpaused, the minimum is met, the outbound limiter allows it and the source covers what is sent: no checked arithmetic and no token overflow can fail |
| `Acceptance.ReceiveSucceedsWhen` | programs/paye-oft/src/instructions/lz_receive.rs:31-176 | a delivery succeeds if and only if sender, accounts, message, packet and pause are in order, its worth fits in u64, the inbound limiter allows it, the supply does not overflow, a mint authority is given and the compose message is taken; overflow and exhaustion are named exactly when they are the cause |
| `Acceptance.HistorySentAmounts` | programs/paye-oft/src/instructions/send.rs:121-121 | the amounts of every send of every history are whole units, at least one unless nothing is sent, and recoverable |
| `ControlHistory.AdminSuccession` | programs/paye-oft/src/instructions/accept_admin.rs:16-31 | every change of admin is the acceptance, signed by the successor, of the latest nomination its immediate predecessor signed during its own term |
| `ControlHistory.PendingWasNominated` | programs/paye-oft/src/instructions/set_oft_config.rs:21-30 | whoever is pending was last nominated by the present admin, in office ever since |
| `ControlHistory.TrafficNeedsUnpause` | programs/paye-oft/src/instructions/set_pause.rs:21-40 | after a pause nothing is sent or received until the unpauser in force, or the admin through either permitted path, has unpaused |
| `ControlHistory.PausedStep` | programs/paye-oft/src/instructions/send.rs:65-65 | while paused the supply changes only by holders' own burns, limiters only by configuration, and only an entitled unpause ends the pause |
| `ControlHistory.PeersConfiguredBy` | programs/paye-oft/src/instructions/set_peer_config.rs:36-42 | outside traffic, peers change only at the hand of the admin or the enabled developer |
| `ControlHistory.ZeroDeveloperEnabledWhen` | programs/paye-oft/src/instructions/set_oft_config.rs:58-75 | a change leaves a zero developer enabled if and only if it enables the role while no developer is set |
| `Configuration.LastWriteIsInForce` | programs/paye-oft/src/instructions/set_peer_config.rs:45-77 | in every history each setting (a peer's existence, address, fee override, enforced options and the presence of each of its two limiters; the default fee, admin, nominee, pause flag, pauser, unpauser, developer and its flag) is what the last write by somebody then entitled to it left, or the initial value if there was none |
| `Configuration.RunWrites` | programs/paye-oft/src/instructions/set_oft_config.rs:19-78 | a step writes a setting if and only if it is a successful configuration that names it; no other step of any kind changes a setting |
| `Configuration.RunAnswers` | programs/paye-oft/src/instructions/set_oft_config.rs:19-78 | every configuration step, an acceptance of the admin role and a new delegate included, is refused as Unauthorized if its signer is not entitled, else as InvalidFee or by the endpoint if its value is not acceptable, and otherwise succeeds |
| `Configuration.SignersByLastWrites` | programs/paye-oft/src/instructions/set_pause.rs:20-40 | a configuration step is refused as Unauthorized if and only if the history does not entitle its signer: for the pause the holder written last or else the admin, for peers the admin or the developer written last while the flag written last enables the role, for the store the admin, for an acceptance the nominee written last |
| `Configuration.SendObeysLastWrites` | programs/paye-oft/src/instructions/send.rs:61-150 | every send of every history is charged by the last fee override written for its destination, or the last default fee while there is none; goes to the last address written; carries the last enforced options of its kind combined with the sender's; and is never made while the last write of the pause flag is a pause |
| `Configuration.ReceiveObeysLastWrites` | programs/paye-oft/src/instructions/lz_receive.rs:31-36 | a delivery to an existing peer is refused as InvalidSender if and only if its sender is not the address written last; whatever is received comes from an address that somebody entitled to wrote |

## Left out

- Deployment and wiring scripts, Makefile, front-end and LayerZero configuration: tooling and network I/O.
- PDA derivation, bump seeds, account sizes, rent and event emission: keys and signers are opaque values.
- The contents of option strings (`combine_options`, `assert_type_3`) and messaging fees: the logic is in an unseen library, taken as a function in `Env` and a verdict; `quote_send` is modelled without its options.
- Adapter-type sends and receives over runs: the program only burns and mints, so conservation is claimed for Native; the Adapter branch is covered in `Fees.AdapterAmounts`, and `SendInstruction.Send` follows it.
- Transfer fees withheld during a Native send: the Native mint is taken to have none.
- Multisig mint authorities: an authority that matches the mint's is taken to be able to mint.
- Token account closing, freezing, delegation and changes of owner: not used by the bridge.
- The `delegate` registered at the endpoint: the store does not record it.
- `recover_lamports` and `oft_version`: one-line facts without token effect.
- The other chains' contracts: an environment ledger in unbounded integers that burns and mints whole shared units.
- Message verification and nonce ordering by LayerZero: only that a cleared packet was in flight and is removed.
- A rate limiter with a clock that goes back, beyond the exact condition for one intermediate refill: the refinement, closed form and net-flow results are stated on a forward clock.
- Quotes.QuoteOft: fee descriptions are two labels instead of strings.
