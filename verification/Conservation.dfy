/** Conservation across the mesh and the books of the Solana side, over whole runs. */
module Conservation {
  import opened Primitives
  import opened Arithmetic
  import opened RateLimiters
  import opened Fees
  import opened Accounts
  import opened Bridge
  import opened Balances
  import opened Invariants
  import opened Effects
  import MsgCodec
  import FeeTheory
  import LzReceiveInstruction
  import WithdrawFee

  // ---- Quantities summed over a run -----------------------------------------------------------------------------

  /** What a step contributes to one of the running totals. Escrow quantities name the escrow account. */
  datatype Quantity =
    | DirectBurns
    | SentOut
    | MintedHere
    | FeesCollected
    | DepositedIn(escrow: Pubkey)
    | WithdrawnFrom(escrow: Pubkey)
    | Dispatches(packet: Packet)
    | Settlements(packet: Packet)

  function Contribution(q: Quantity, o: Outcome): int {
    match q
    case DirectBurns => if o.Burned? then o.amount else 0
    case SentOut => if o.Sent? then o.sent.amounts.receivedLd else 0
    case MintedHere => if o.Received? then o.received.amountLd else 0
    case FeesCollected => if o.Sent? then o.sent.amounts.feeLd else 0
    case DepositedIn(escrow) =>
      if o.Received? && o.dest == escrow then o.received.amountLd
      else if o.Transferred? && o.to == escrow && o.from != escrow then o.amount
      else 0
    case WithdrawnFrom(escrow) => if o.Withdrawn? && o.dest != escrow then o.amount else 0
    case Dispatches(p) => if MotionOf(o) == In(p) then 1 else 0
    case Settlements(p) => if MotionOf(o) == Out(p) then 1 else 0
  }

  function TotalOf(q: Quantity, run: Run, n: nat): int
    requires n <= |run.steps|
  {
    if n == 0 then 0 else TotalOf(q, run, n - 1) + Contribution(q, run.outcomes[n - 1])
  }

  // ---- Conservation ----------------------------------------------------------------------------------------------

  /** Supply here, supply elsewhere, and what is under way. */
  ghost function WholeSupply(env: Env, s: Chain): int {
    s.ledger.supply + s.others + InFlightWorth(env, s.store.ld2sdRate, s.mailbox.inFlight)
  }

  /** What a motion adds to the worth in flight. */
  ghost function WorthMoved(env: Env, rate: Rate, m: Motion): int {
    match m
    case Still => 0
    case In(p) => BackedWorth(env, rate, p)
    case Out(p) => -BackedWorth(env, rate, p)
  }

  lemma WorthFollows(env: Env, rate: Rate, before: multiset<Packet>, after: multiset<Packet>, m: Motion)
    requires PacketsExplain(before, after, m)
    ensures InFlightWorth(env, rate, after) == InFlightWorth(env, rate, before) + WorthMoved(env, rate, m)
  {
    match m {
      case Still =>
      case In(p) => WorthWith(env, rate, before, p);
      case Out(p) => WorthWithout(env, rate, before, p);
    }
  }

  /** No step creates or destroys tokens, except a holder burning their own directly. */
  lemma HistoryConserves(run: History, i: nat)
    requires i < |run.steps|
    ensures WholeSupply(run.env, run.states[i + 1])
         == WholeSupply(run.env, run.states[i]) - Contribution(DirectBurns, run.outcomes[i])
  {
    HistoryPackets(run, i);
    HistoryAmounts(run, i);
    RunStepFixed(run, i);
    WorthFollows(run.env, run.states[i].store.ld2sdRate, run.states[i].mailbox.inFlight,
                 run.states[i + 1].mailbox.inFlight, MotionOf(run.outcomes[i]));
  }

  /** Cross-chain conservation: in every reachable state the supply on Solana, the supply on all other chains
      and the worth of the packets in flight add up to the initial supply elsewhere, less what holders burned
      directly with the token program. */
  lemma {:induction false} SupplyIsConserved(run: History, n: nat)
    requires n <= |run.steps|
    ensures WholeSupply(run.env, run.states[n]) + TotalOf(DirectBurns, run, n) == run.states[0].others
  {
    if n > 0 {
      SupplyIsConserved(run, n - 1);
      HistoryConserves(run, n - 1);
    }
  }

  // ---- Each packet settles at most once ----------------------------------------------------------------------------

  lemma HistorySettles(run: History, i: nat, p: Packet)
    requires i < |run.steps|
    ensures run.states[i + 1].mailbox.inFlight[p]
         == run.states[i].mailbox.inFlight[p] + Contribution(Dispatches(p), run.outcomes[i])
            - Contribution(Settlements(p), run.outcomes[i])
  {
    HistoryPackets(run, i);
  }

  /** A packet has been dispatched exactly as often as it has been settled, here or elsewhere, and is still in
      flight: no packet settles twice and none is lost. */
  lemma {:induction false} PacketsSettleOnce(run: History, p: Packet, n: nat)
    requires n <= |run.steps|
    ensures TotalOf(Dispatches(p), run, n)
         == TotalOf(Settlements(p), run, n) + run.states[n].mailbox.inFlight[p]
  {
    if n > 0 {
      PacketsSettleOnce(run, p, n - 1);
      HistorySettles(run, n - 1, p);
    }
  }

  /** What a delivery does: the packet leaves the mailbox, exactly its worth appears in the recipient's account
      and in the supply, and no other account changes. */
  lemma DeliveryMintsWorth(env: Env, s: Chain, step: Step)
    requires Sane(env, s) && s.clock <= step.at && Next(env, s, step).outcome.Received?
    ensures var t := Next(env, s, step);
            var worth := Worth(s.store.ld2sdRate, t.outcome.received.packet);
            && t.outcome.received.packet in s.mailbox.inFlight
            && t.after.mailbox.inFlight == s.mailbox.inFlight - multiset{t.outcome.received.packet}
            && t.outcome.received.amountLd == worth
            && t.after.ledger.supply == s.ledger.supply + worth
            && forall k :: t.after.ledger.Balance(k) == s.ledger.Balance(k) + (if k == t.outcome.dest then worth else 0)
  {
    TimeKeepsSane(env, s, step.at);
    StepPackets(env, s, step);
    ReceiveAmounts(env, s.(clock := step.at), step.action.receiveAccounts, step.action.receiveParams);
  }

  /** A packet that cannot be received (its amount does not fit, the limiter refuses, or any other failure)
      stays in flight, and nothing but the clock changes. */
  lemma RefusedStaysInFlight(env: Env, s: Chain, step: Step)
    requires step.action.LzReceive? && Next(env, s, step).outcome.Rejected?
    requires LzReceiveInstruction.ClearedPacket(env, step.action.receiveParams) in s.mailbox.inFlight
    ensures Next(env, s, step).after == s.(clock := step.at)
    ensures LzReceiveInstruction.ClearedPacket(env, step.action.receiveParams) in Next(env, s, step).after.mailbox.inFlight
  {
    RejectedChangesNothing(env, s, step);
  }

  // ---- Packets that never settle -------------------------------------------------------------------------------------

  /** Addressed to this chain but without a member's backing, too short, or worth more than 64 bits hold here. */
  ghost predicate Undeliverable(env: Env, rate: Rate, p: Packet) {
    && p.dstEid == env.localEid
    && (!Backed(env, p) || |p.message| < MsgCodec.COMPOSE_MSG_OFFSET || MsgCodec.AmountSd(p.message) > U64_MAX / rate)
  }

  /** Shared units convert on receipt up to `U64_MAX / rate` and no further. */
  lemma ConvertsUpTo(rate: Rate, amountSd: U64)
    ensures Sd2Ld(rate, amountSd).Err? <==> rate * amountSd > U64_MAX
    ensures Sd2Ld(rate, amountSd).Err? <==> amountSd > U64_MAX / rate
  {
    FeeTheory.SharedUnitsRoundTrip(rate, amountSd);
    FloorBounds(U64_MAX, rate);
    if amountSd <= U64_MAX / rate {
      MulMonotone(amountSd, U64_MAX / rate, rate);
    } else {
      MulMonotone(U64_MAX / rate + 1, amountSd, rate);
      Distribute(rate, U64_MAX / rate, 1);
    }
  }

  /** With 18 local and 6 shared decimals a transfer above 18446744 shared units, some 18.4 tokens, is too much. */
  lemma ConvertsAtEighteenDecimals(amountSd: U64)
    ensures Sd2Ld(1_000_000_000_000, amountSd).Err? <==> amountSd > 18_446_744
  {
    ConvertsUpTo(1_000_000_000_000, amountSd);
  }

  lemma ReceivedLength(env: Env, s: Chain, accts: LzReceiveInstruction.ReceiveAccounts,
                       params: LzReceiveInstruction.ReceiveParams)
    requires DoReceive(env, s, accts, params).outcome.Received?
    ensures |DoReceive(env, s, accts, params).outcome.received.packet.message| >= MsgCodec.COMPOSE_MSG_OFFSET
  {
  }

  lemma ReceivedIsDeliverable(env: Env, s: Chain, accts: LzReceiveInstruction.ReceiveAccounts,
                              params: LzReceiveInstruction.ReceiveParams)
    requires Sane(env, s) && DoReceive(env, s, accts, params).outcome.Received?
    ensures !Undeliverable(env, s.store.ld2sdRate, DoReceive(env, s, accts, params).outcome.received.packet)
  {
    ReceivedAmounts(env, s, accts, params);
    ReceivedLength(env, s, accts, params);
    ConvertsUpTo(s.store.ld2sdRate, MsgCodec.AmountSd(params.message));
  }

  lemma SettledElsewhere(env: Env, s: Chain, action: Action)
    ensures Act(env, s, action).outcome.MemberReceived? ==> Act(env, s, action).outcome.packet.dstEid != env.localEid
    ensures Act(env, s, action).outcome.Received? ==> action.LzReceive?
  {
  }

  lemma NeverSettles(env: Env, s: Chain, step: Step, p: Packet)
    requires Sane(env, s) && s.clock <= step.at && Undeliverable(env, s.store.ld2sdRate, p)
    ensures MotionOf(Next(env, s, step).outcome) != Out(p)
  {
    TimeKeepsSane(env, s, step.at);
    SettledElsewhere(env, s.(clock := step.at), step.action);
    if Next(env, s, step).outcome.Received? {
      ReceivedIsDeliverable(env, s.(clock := step.at), step.action.receiveAccounts, step.action.receiveParams);
    }
  }

  lemma HistoryNeverSettles(run: History, i: nat, p: Packet)
    requires i < |run.steps| && Undeliverable(run.env, run.states[0].store.ld2sdRate, p)
    ensures run.states[i + 1].mailbox.inFlight[p] >= run.states[i].mailbox.inFlight[p]
  {
    HistoryIsSane(run, i);
    NeverSettles(run.env, run.states[i], StepAt(run, i), p);
    HistorySettles(run, i, p);
  }

  /** A packet for this chain whose amount does not fit in 64 bits of local decimals, that is too short, or that
      no member sent stays in flight for good: no later state of any history has fewer copies of it. */
  lemma {:induction false} UndeliverableStays(run: History, p: Packet, i: nat, j: nat)
    requires i <= j <= |run.steps| && Undeliverable(run.env, run.states[0].store.ld2sdRate, p)
    ensures run.states[j].mailbox.inFlight[p] >= run.states[i].mailbox.inFlight[p]
    decreases j
  {
    if i < j {
      UndeliverableStays(run, p, i, j - 1);
      HistoryNeverSettles(run, j - 1, p);
    }
  }

  // ---- The books of the Solana side ----------------------------------------------------------------------------------

  lemma ExplainedBooks(env: Env, s: Chain, t: Chain, o: Outcome)
    requires AmountsExplain(env, s, t, o)
    ensures t.ledger.supply == s.ledger.supply + Contribution(MintedHere, o) - Contribution(SentOut, o)
                               - Contribution(DirectBurns, o)
    ensures Contribution(MintedHere, o) % s.store.ld2sdRate == 0
    ensures Contribution(SentOut, o) % s.store.ld2sdRate == 0
    ensures EscrowBalance(t) == EscrowBalance(s) + Contribution(FeesCollected, o)
                                + Contribution(DepositedIn(s.store.tokenEscrow), o)
                                - Contribution(WithdrawnFrom(s.store.tokenEscrow), o)
  {
    var rate := s.store.ld2sdRate;
    FloorOfMultiple(0, rate);
    if o.Sent? { FloorOfMultiple(MsgCodec.AmountSd(o.sent.packet.message), rate); }
    if o.Received? { FloorOfMultiple(MsgCodec.AmountSd(o.received.packet.message), rate); }
  }

  lemma HistoryBooks(run: History, i: nat)
    requires i < |run.steps|
    ensures var s, t, o, escrow := run.states[i], run.states[i + 1], run.outcomes[i], run.states[0].store.tokenEscrow;
            && t.ledger.supply == s.ledger.supply + Contribution(MintedHere, o) - Contribution(SentOut, o)
                                  - Contribution(DirectBurns, o)
            && Contribution(MintedHere, o) % run.states[0].store.ld2sdRate == 0
            && Contribution(SentOut, o) % run.states[0].store.ld2sdRate == 0
            && EscrowBalance(t) == EscrowBalance(s) + Contribution(FeesCollected, o)
                                   + Contribution(DepositedIn(escrow), o) - Contribution(WithdrawnFrom(escrow), o)
  {
    HistoryAmounts(run, i);
    RunKeepsFixed(run, 0, i);
    RunStepFixed(run, i);
    ExplainedBooks(run.env, run.states[i], run.states[i + 1], run.outcomes[i]);
  }

  lemma {:induction false} SupplyBooks(run: History, n: nat)
    requires n <= |run.steps|
    ensures run.states[n].ledger.supply
         == TotalOf(MintedHere, run, n) - TotalOf(SentOut, run, n) - TotalOf(DirectBurns, run, n)
  {
    if n > 0 {
      SupplyBooks(run, n - 1);
      HistoryBooks(run, n - 1);
    }
  }

  lemma {:induction false} TrafficInUnits(run: History, n: nat)
    requires n <= |run.steps|
    ensures (TotalOf(MintedHere, run, n) - TotalOf(SentOut, run, n)) % run.states[0].store.ld2sdRate == 0
  {
    var rate := run.states[0].store.ld2sdRate;
    if n == 0 {
      FloorOfMultiple(0, rate);
    } else {
      TrafficInUnits(run, n - 1);
      HistoryBooks(run, n - 1);
      var o := run.outcomes[n - 1];
      ModOfSum(TotalOf(MintedHere, run, n - 1) - TotalOf(SentOut, run, n - 1),
               Contribution(MintedHere, o), Contribution(SentOut, o), rate);
    }
  }

  lemma ModOfSum(a: int, plus: int, minus: int, d: int)
    requires 0 < d && a % d == 0 && plus % d == 0 && minus % d == 0
    ensures (a + plus - minus) % d == 0
  {
    var y, z := plus / d, minus / d;
    assert plus == d * y && minus == d * z;
    ModOfShift(a, y, d);
    ModOfShift(a + d * y - d * z, z, d);
    assert a + d * y - d * z + d * z == a + d * y;
  }

  lemma {:induction false} EscrowBooks(run: History, n: nat)
    requires n <= |run.steps|
    ensures var escrow := run.states[0].store.tokenEscrow;
            EscrowBalance(run.states[n])
            == TotalOf(FeesCollected, run, n) + TotalOf(DepositedIn(escrow), run, n) - TotalOf(WithdrawnFrom(escrow), run, n)
  {
    if n > 0 {
      EscrowBooks(run, n - 1);
      HistoryBooks(run, n - 1);
    }
  }

  /** The Solana books, in every reachable state: the supply is the sum of all token accounts; it is what was
      minted less what was sent and what holders burned; with those direct burns added back it is a multiple
      of the rate; TVL is 0; and the escrow holds exactly the fees collected and the direct deposits less what
      was withdrawn to other accounts, so withdrawals never exceed fees plus deposits. */
  lemma BooksBalance(run: History, n: nat)
    requires n <= |run.steps|
    ensures var s, escrow := run.states[n], run.states[0].store.tokenEscrow;
            && s.ledger.supply == SumBalances(s.ledger.accounts)
            && s.store.tvlLd == 0
            && s.store.tokenEscrow == escrow
            && s.ledger.supply == TotalOf(MintedHere, run, n) - TotalOf(SentOut, run, n) - TotalOf(DirectBurns, run, n)
            && (s.ledger.supply + TotalOf(DirectBurns, run, n)) % run.states[0].store.ld2sdRate == 0
            && s.ledger.Balance(escrow) == TotalOf(FeesCollected, run, n) + TotalOf(DepositedIn(escrow), run, n)
                                           - TotalOf(WithdrawnFrom(escrow), run, n)
            && TotalOf(WithdrawnFrom(escrow), run, n)
               <= TotalOf(FeesCollected, run, n) + TotalOf(DepositedIn(escrow), run, n)
  {
    HistoryIsSane(run, n);
    SupplyBooks(run, n);
    TrafficInUnits(run, n);
    EscrowBooks(run, n);
  }

  /** The supply is a whole number of shared units exactly when direct burns are: a holder can leave an amount on
      this side that no send can move out. */
  lemma SupplyInUnitsWhen(run: History, n: nat)
    requires n <= |run.steps|
    ensures var rate := run.states[0].store.ld2sdRate;
            run.states[n].ledger.supply % rate == 0 <==> TotalOf(DirectBurns, run, n) % rate == 0
  {
    SupplyBooks(run, n);
    TrafficInUnits(run, n);
    DifferenceInUnits(run.states[n].ledger.supply, TotalOf(DirectBurns, run, n), run.states[0].store.ld2sdRate);
  }

  /** Two parts of a multiple are both multiples or neither is. */
  lemma DifferenceInUnits(a: int, b: int, d: int)
    requires 0 < d && (a + b) % d == 0
    ensures a % d == 0 <==> b % d == 0
  {
    if a % d == 0 { ModOfSum(a + b, 0, a, d); }
    if b % d == 0 { ModOfSum(a + b, 0, b, d); }
  }

  /** A withdrawal is the admin's, and moves exactly the fee from the escrow to the named account. */
  lemma WithdrawMovesFee(env: Env, s: Chain, accts: WithdrawFee.WithdrawAccounts, feeLd: U64)
    requires Sane(env, s) && Act(env, s, Withdraw(accts, feeLd)).outcome.Withdrawn?
    ensures accts.admin == s.store.admin
    ensures var after := Act(env, s, Withdraw(accts, feeLd)).after.ledger;
            && after.supply == s.ledger.supply
            && forall k :: after.Balance(k) == s.ledger.Balance(k) - (if k == s.store.tokenEscrow then feeLd else 0)
                                                                   + (if k == accts.tokenDest then feeLd else 0)
  {
    TransferMoves(s.ledger, accts.tokenEscrow, accts.tokenDest, env.storeKey, feeLd);
  }

  /** Tokens leave the escrow only in a withdrawal. */
  lemma EscrowFallsOnlyByWithdrawal(run: History, i: nat)
    requires i < |run.steps| && EscrowBalance(run.states[i + 1]) < EscrowBalance(run.states[i])
    ensures run.outcomes[i].Withdrawn? && run.outcomes[i].dest != run.states[0].store.tokenEscrow
    ensures EscrowBalance(run.states[i + 1]) == EscrowBalance(run.states[i]) - run.outcomes[i].amount
  {
    HistoryAmounts(run, i);
    RunKeepsFixed(run, 0, i);
  }

  /** In every reachable state the withdrawal's subtraction never fails: the admin's request is refused as
      InvalidFee exactly when it exceeds the escrow balance. */
  lemma WithdrawRefusedWhen(run: History, n: nat, accts: WithdrawFee.WithdrawAccounts, feeLd: U64)
    requires n <= |run.steps|
    requires var s := run.states[n];
             accts.admin == s.store.admin && accts.tokenEscrow == s.store.tokenEscrow && accts.tokenDest in s.ledger.accounts
    ensures var s := run.states[n];
            WithdrawFee.Withdraw(run.env, s.store, s.ledger, accts, feeLd) == Err(InvalidFee)
            <==> feeLd > EscrowBalance(s)
  {
    HistoryIsSane(run, n);
  }
}
