/** What each kind of step does to the supply, the packets in flight and the escrow: one lemma per kind, and
    `Explains`, which is all that the theorems about runs need to know of a step. */
module Effects {
  import opened Primitives
  import opened Arithmetic
  import opened RateLimiters
  import opened Fees
  import opened Accounts
  import opened Bridge
  import opened Balances
  import opened Invariants
  import MsgCodec
  import FeeTheory
  import SendInstruction
  import LzReceiveInstruction

  // ---- The amounts of a reachable send ---------------------------------------------------------------------------

  /** A Native send below 100 % moves whole shared units: its packet is worth exactly what is burned, at least
      one unit is dispatched unless nothing is sent, and the amount converts back without overflow. */
  lemma SentAmounts(env: Env, s: Chain, accts: SendInstruction.SendAccounts, params: SendInstruction.SendParams)
    requires Sane(env, s) && DoSend(env, s, accts, params).outcome.Sent?
    ensures var sent := DoSend(env, s, accts, params).outcome.sent;
            var units := MsgCodec.AmountSd(sent.packet.message);
            && sent.amounts.sentLd == sent.amounts.receivedLd + sent.amounts.feeLd
            && sent.amounts.feeLd % s.store.ld2sdRate == 0
            && Worth(s.store.ld2sdRate, sent.packet) == sent.amounts.receivedLd
            && Sd2Ld(s.store.ld2sdRate, units) == Ok(sent.amounts.receivedLd)
            && (sent.amounts.sentLd > 0 ==> units >= 1)
            && sent.packet.srcEid == env.localEid && sent.packet.sender == env.storeKey
            && sent.packet.dstEid == params.dstEid && sent.packet.receiver == s.peers[params.dstEid].peerAddress
  {
    var peer := s.peers[params.dstEid];
    assert PeerSane(env, params.dstEid, peer, Seconds(s.clock));
    var rate, bps := s.store.ld2sdRate, BasisPointsInForce(s.store.defaultFeeBps, peer.feeBps);
    var amounts := NativeAmounts(rate, params.amountLd, bps).value;
    FeeTheory.NativeInSharedUnits(rate, params.amountLd, bps);
    FeeTheory.NativeDelivers(rate, params.amountLd, bps);
    FloorOfMultiple(FeeTheory.SharedFee(Ld2Sd(rate, params.amountLd), bps), rate);
    MsgCodec.DecodesSend(params.to, Ld2Sd(rate, amounts.receivedLd), accts.signer, params.composeMsg);
  }

  /** A delivered packet came from a member of the mesh, was in flight, is gone, and minted its worth. */
  lemma ReceivedAmounts(env: Env, s: Chain, accts: LzReceiveInstruction.ReceiveAccounts,
                        params: LzReceiveInstruction.ReceiveParams)
    requires Sane(env, s) && DoReceive(env, s, accts, params).outcome.Received?
    ensures var t := DoReceive(env, s, accts, params);
            var packet := t.outcome.received.packet;
            && packet == LzReceiveInstruction.ClearedPacket(env, params)
            && packet in s.mailbox.inFlight
            && t.after.mailbox.inFlight == s.mailbox.inFlight - multiset{packet}
            && Backed(env, packet)
            && t.outcome.received.amountLd == Worth(s.store.ld2sdRate, packet)
  {
    var peer := s.peers[params.srcEid];
    assert PeerSane(env, params.srcEid, peer, Seconds(s.clock));
    assert LzReceiveInstruction.ClearedPacket(env, params) in s.mailbox.inFlight;
  }

  // ---- One step, explained by its outcome ----------------------------------------------------------------------------

  function EscrowBalance(s: Chain): nat {
    s.ledger.Balance(s.store.tokenEscrow)
  }

  /** How a step moves packets: none, one into flight, or one out of it. */
  datatype Motion = Still | In(packet: Packet) | Out(packet: Packet)

  function MotionOf(o: Outcome): Motion {
    match o
    case Sent(_, sent) => In(sent.packet)
    case MemberSent(p) => In(p)
    case StrangerSent(p) => In(p)
    case Received(received, _) => Out(received.packet)
    case MemberReceived(p) => Out(p)
    case _ => Still
  }

  ghost predicate PacketsExplain(before: multiset<Packet>, after: multiset<Packet>, m: Motion) {
    match m
    case Still => after == before
    case In(p) => after == before + multiset{p}
    case Out(p) => p in before && after == before - multiset{p}
  }

  /** By how much the supply here, the escrow and the supply elsewhere moved. */
  ghost predicate Moved(s: Chain, t: Chain, supply: int, escrow: int, others: int) {
    && t.ledger.supply == s.ledger.supply + supply
    && EscrowBalance(t) == EscrowBalance(s) + escrow
    && t.others == s.others + others
  }

  ghost predicate AmountsExplain(env: Env, s: Chain, t: Chain, o: Outcome) {
    var rate, escrow := s.store.ld2sdRate, s.store.tokenEscrow;
    match o
    case Sent(_, sent) =>
      && Moved(s, t, 0 - sent.amounts.receivedLd, sent.amounts.feeLd, 0)
      && Backed(env, sent.packet) && Worth(rate, sent.packet) == sent.amounts.receivedLd
    case Received(received, dest) =>
      && Moved(s, t, received.amountLd, if dest == escrow then received.amountLd else 0, 0)
      && Backed(env, received.packet) && Worth(rate, received.packet) == received.amountLd
    case MemberSent(p) => Moved(s, t, 0, 0, -Worth(rate, p)) && Backed(env, p)
    case MemberReceived(p) => Moved(s, t, 0, 0, Worth(rate, p)) && Backed(env, p)
    case StrangerSent(p) => Moved(s, t, 0, 0, 0) && !Backed(env, p)
    case Burned(amount) => Moved(s, t, 0 - amount, 0, 0)
    case Transferred(from, to, amount) => Moved(s, t, 0, if to == escrow && from != escrow then amount else 0, 0)
    case Withdrawn(amount, dest) => Moved(s, t, 0, if dest != escrow then 0 - amount else 0, 0)
    case _ => Moved(s, t, 0, 0, 0)
  }

  // ---- Packets ---------------------------------------------------------------------------------------------------

  lemma SendPackets(env: Env, s: Chain, accts: SendInstruction.SendAccounts, params: SendInstruction.SendParams)
    ensures var t := DoSend(env, s, accts, params);
            PacketsExplain(s.mailbox.inFlight, t.after.mailbox.inFlight, MotionOf(t.outcome))
  {
  }

  lemma ReceivePackets(env: Env, s: Chain, accts: LzReceiveInstruction.ReceiveAccounts,
                       params: LzReceiveInstruction.ReceiveParams)
    ensures var t := DoReceive(env, s, accts, params);
            PacketsExplain(s.mailbox.inFlight, t.after.mailbox.inFlight, MotionOf(t.outcome))
  {
  }

  lemma ElsewherePackets(env: Env, s: Chain, action: Action)
    requires action.MemberSend? || action.MemberReceive? || action.StrangerSend?
    ensures var t := DoElsewhere(env, s, action);
            PacketsExplain(s.mailbox.inFlight, t.after.mailbox.inFlight, MotionOf(t.outcome))
  {
  }

  lemma LocalStepPackets(env: Env, s: Chain, action: Action)
    requires !action.Send? && !action.LzReceive? && !action.MemberSend? && !action.MemberReceive? && !action.StrangerSend?
    ensures var t := Act(env, s, action);
            t.after.mailbox == s.mailbox && MotionOf(t.outcome).Still?
  {
  }

  lemma StepPackets(env: Env, s: Chain, step: Step)
    ensures var t := Next(env, s, step);
            PacketsExplain(s.mailbox.inFlight, t.after.mailbox.inFlight, MotionOf(t.outcome))
  {
    var s', action := s.(clock := step.at), step.action;
    if action.Send? {
      SendPackets(env, s', action.sendAccounts, action.sendParams);
    } else if action.LzReceive? {
      ReceivePackets(env, s', action.receiveAccounts, action.receiveParams);
    } else if action.MemberSend? || action.MemberReceive? || action.StrangerSend? {
      ElsewherePackets(env, s', action);
    } else {
      LocalStepPackets(env, s', action);
    }
  }

  // ---- Amounts ---------------------------------------------------------------------------------------------------

  lemma SendAmounts(env: Env, s: Chain, accts: SendInstruction.SendAccounts, params: SendInstruction.SendParams)
    requires WellFormed(env) && Sane(env, s) && accts.signer != env.storeKey
    requires DoSend(env, s, accts, params).outcome.Sent?
    ensures var t := DoSend(env, s, accts, params);
            AmountsExplain(env, s, t.after, t.outcome)
  {
    var t := DoSend(env, s, accts, params);
    assert accts.tokenSource != s.store.tokenEscrow;
    SentAmounts(env, s, accts, params);
    PayMoves(s.ledger, accts, t.outcome.sent.amounts);
  }

  lemma ReceiveAmounts(env: Env, s: Chain, accts: LzReceiveInstruction.ReceiveAccounts,
                       params: LzReceiveInstruction.ReceiveParams)
    requires Sane(env, s) && DoReceive(env, s, accts, params).outcome.Received?
    ensures var t := DoReceive(env, s, accts, params);
            && AmountsExplain(env, s, t.after, t.outcome)
            && forall k :: t.after.ledger.Balance(k)
                        == s.ledger.Balance(k) + (if k == t.outcome.dest then t.outcome.received.amountLd else 0)
  {
    ReceivedAmounts(env, s, accts, params);
    ReceiveMoves(env, s, accts, params, s.peers[params.srcEid], Seconds(s.clock));
  }

  lemma LedgerStepAmounts(env: Env, s: Chain, action: Action)
    requires Sane(env, s) && Assumed(env, action)
    requires action.Withdraw? || action.TransferTokens? || action.BurnTokens? || action.OpenAccount?
    ensures AmountsExplain(env, s, Act(env, s, action).after, Act(env, s, action).outcome)
  {
    if !Act(env, s, action).outcome.Rejected? {
      match action {
        case Withdraw(accts, feeLd) => TransferMoves(s.ledger, accts.tokenEscrow, accts.tokenDest, env.storeKey, feeLd);
        case TransferTokens(owner, from, to, amount) => TransferMoves(s.ledger, from, to, owner, amount);
        case BurnTokens(owner, from, amount) => BurnMoves(s.ledger, from, owner, amount);
        case OpenAccount(key, owner) => OpenMoves(s.ledger, key, owner);
      }
    }
  }

  lemma OtherStepAmounts(env: Env, s: Chain, action: Action)
    requires Sane(env, s)
    requires !action.Send? && !action.LzReceive? && !action.Withdraw? && !action.TransferTokens?
             && !action.BurnTokens? && !action.OpenAccount?
    ensures AmountsExplain(env, s, Act(env, s, action).after, Act(env, s, action).outcome)
  {
  }

  lemma ActAmounts(env: Env, s: Chain, action: Action)
    requires WellFormed(env) && Sane(env, s) && Assumed(env, action)
    ensures AmountsExplain(env, s, Act(env, s, action).after, Act(env, s, action).outcome)
  {
    if action.Send? {
      if DoSend(env, s, action.sendAccounts, action.sendParams).outcome.Sent? {
        SendAmounts(env, s, action.sendAccounts, action.sendParams);
      }
    } else if action.LzReceive? {
      if DoReceive(env, s, action.receiveAccounts, action.receiveParams).outcome.Received? {
        ReceiveAmounts(env, s, action.receiveAccounts, action.receiveParams);
      }
    } else if action.Withdraw? || action.TransferTokens? || action.BurnTokens? || action.OpenAccount? {
      LedgerStepAmounts(env, s, action);
    } else {
      OtherStepAmounts(env, s, action);
    }
  }

  lemma StepAmounts(env: Env, s: Chain, step: Step)
    requires WellFormed(env) && Sane(env, s) && s.clock <= step.at && Assumed(env, step.action)
    ensures AmountsExplain(env, s, Next(env, s, step).after, Next(env, s, step).outcome)
  {
    TimeKeepsSane(env, s, step.at);
    ActAmounts(env, s.(clock := step.at), step.action);
  }

  // ---- Histories --------------------------------------------------------------------------------------------------

  lemma HistoryPackets(run: History, i: nat)
    requires i < |run.steps|
    ensures PacketsExplain(run.states[i].mailbox.inFlight, run.states[i + 1].mailbox.inFlight, MotionOf(run.outcomes[i]))
  {
    StepPackets(run.env, run.states[i], StepAt(run, i));
  }

  lemma HistoryAmounts(run: History, i: nat)
    requires i < |run.steps|
    ensures AmountsExplain(run.env, run.states[i], run.states[i + 1], run.outcomes[i])
  {
    HistoryIsSane(run, i);
    StepAmounts(run.env, run.states[i], StepAt(run, i));
  }
}
