/** What a step leaves alone, and whose balances it moves: nothing but what its outcome names. */
module Frames {
  import opened Primitives
  import opened Fees
  import opened Accounts
  import opened Bridge
  import opened Balances
  import opened Invariants
  import opened Effects
  import SendInstruction
  import LzReceiveInstruction
  import WithdrawFee

  // ---- Frames --------------------------------------------------------------------------------------------------------

  /** Only the peer of one chain differs, if any. */
  ghost predicate SamePeersBut(s: Chain, t: Chain, eid: U32) {
    t.peers.Keys == s.peers.Keys + {eid} && forall other | other in s.peers && other != eid :: t.peers[other] == s.peers[other]
  }

  /** Only that peer's limiters differ. */
  ghost predicate SamePeersButLimiters(s: Chain, t: Chain, eid: U32) {
    && eid in s.peers && SamePeersBut(s, t, eid)
    && t.peers[eid] == s.peers[eid].(outbound := t.peers[eid].outbound, inbound := t.peers[eid].inbound)
  }

  ghost predicate Frame(s: Chain, action: Action, t: Chain, o: Outcome) {
    match o
    case Rejected(_) => t == s
    case Configured =>
      if action.ConfigurePeer? then t == s.(peers := t.peers) && SamePeersBut(s, t, action.remoteEid)
      else t == s.(store := t.store)
    case Sent(eid, _) => t == s.(peers := t.peers, ledger := t.ledger, mailbox := t.mailbox) && SamePeersButLimiters(s, t, eid)
    case Received(received, _) =>
      t == s.(peers := t.peers, ledger := t.ledger, mailbox := t.mailbox) && SamePeersButLimiters(s, t, received.packet.srcEid)
    case Withdrawn(_, _) => t == s.(ledger := t.ledger)
    case Transferred(_, _, _) => t == s.(ledger := t.ledger)
    case Burned(_) => t == s.(ledger := t.ledger)
    case Opened => t == s.(ledger := t.ledger)
    case MemberSent(_) => t == s.(mailbox := t.mailbox, others := t.others)
    case MemberReceived(_) => t == s.(mailbox := t.mailbox, others := t.others)
    case StrangerSent(_) => t == s.(mailbox := t.mailbox)
  }

  lemma SendFrames(env: Env, s: Chain, accts: SendInstruction.SendAccounts, params: SendInstruction.SendParams)
    ensures var t := DoSend(env, s, accts, params);
            Frame(s, Send(accts, params), t.after, t.outcome)
  {
  }

  lemma ReceiveFrames(env: Env, s: Chain, accts: LzReceiveInstruction.ReceiveAccounts,
                      params: LzReceiveInstruction.ReceiveParams)
    ensures var t := DoReceive(env, s, accts, params);
            Frame(s, LzReceive(accts, params), t.after, t.outcome)
  {
  }

  lemma OthersFrame(env: Env, s: Chain, action: Action)
    requires !action.Send? && !action.LzReceive?
    ensures Frame(s, action, Act(env, s, action).after, Act(env, s, action).outcome)
  {
  }

  /** A step changes only what its outcome names. */
  lemma StepFrames(env: Env, s: Chain, step: Step)
    ensures Frame(s.(clock := step.at), step.action, Next(env, s, step).after, Next(env, s, step).outcome)
  {
    match step.action {
      case Send(accts, params) => SendFrames(env, s.(clock := step.at), accts, params);
      case LzReceive(accts, params) => ReceiveFrames(env, s.(clock := step.at), accts, params);
      case _ => OthersFrame(env, s.(clock := step.at), step.action);
    }
  }

  // ---- Balances ------------------------------------------------------------------------------------------------------

  /** What a step adds to an account: a sender pays what is sent, of which the fee goes to the escrow; a recipient
      gains what is minted; withdrawals and transfers move, burns take. */
  function Gain(action: Action, o: Outcome, key: Pubkey): int {
    match o
    case Sent(_, sent) =>
      if !action.Send? then 0
      else (if key == action.sendAccounts.tokenSource then 0 - sent.amounts.sentLd else 0)
           + (if key == action.sendAccounts.tokenEscrow then sent.amounts.feeLd else 0)
    case Received(received, dest) => if key == dest then received.amountLd else 0
    case Withdrawn(amount, dest) =>
      if !action.Withdraw? then 0
      else (if key == action.withdrawAccounts.tokenEscrow then 0 - amount else 0) + (if key == dest then amount else 0)
    case Transferred(from, to, amount) => (if key == from then 0 - amount else 0) + (if key == to then amount else 0)
    case Burned(amount) => if action.BurnTokens? && key == action.from then 0 - amount else 0
    case _ => 0
  }

  ghost predicate Gains(s: Chain, action: Action, t: Chain, o: Outcome) {
    && KeepsOwners(s.ledger, t.ledger)
    && forall key :: t.ledger.Balance(key) == s.ledger.Balance(key) + Gain(action, o, key)
  }

  lemma SendGains(env: Env, s: Chain, accts: SendInstruction.SendAccounts, params: SendInstruction.SendParams)
    requires Balanced(s.ledger)
    ensures var t := DoSend(env, s, accts, params);
            Gains(s, Send(accts, params), t.after, t.outcome)
  {
    var t := DoSend(env, s, accts, params);
    if t.outcome.Sent? {
      PayMoves(s.ledger, accts, t.outcome.sent.amounts);
    }
  }

  lemma ReceiveGains(env: Env, s: Chain, accts: LzReceiveInstruction.ReceiveAccounts,
                     params: LzReceiveInstruction.ReceiveParams)
    requires Balanced(s.ledger)
    ensures var t := DoReceive(env, s, accts, params);
            Gains(s, LzReceive(accts, params), t.after, t.outcome)
  {
    if DoReceive(env, s, accts, params).outcome.Received? {
      ReceiveMoves(env, s, accts, params, s.peers[params.srcEid], Seconds(s.clock));
    }
  }

  lemma WithdrawGains(env: Env, s: Chain, accts: WithdrawFee.WithdrawAccounts, feeLd: U64)
    requires Balanced(s.ledger)
    ensures var t := Act(env, s, Withdraw(accts, feeLd));
            Gains(s, Withdraw(accts, feeLd), t.after, t.outcome)
  {
    if WithdrawFee.Withdraw(env, s.store, s.ledger, accts, feeLd).Ok? {
      TransferMoves(s.ledger, accts.tokenEscrow, accts.tokenDest, env.storeKey, feeLd);
    }
  }

  lemma HolderGains(env: Env, s: Chain, action: Action)
    requires Balanced(s.ledger) && (action.TransferTokens? || action.BurnTokens? || action.OpenAccount?)
    ensures Gains(s, action, Act(env, s, action).after, Act(env, s, action).outcome)
  {
    if !Act(env, s, action).outcome.Rejected? {
      match action {
        case TransferTokens(owner, from, to, amount) => TransferMoves(s.ledger, from, to, owner, amount);
        case BurnTokens(owner, from, amount) => BurnMoves(s.ledger, from, owner, amount);
        case OpenAccount(key, owner) => OpenMoves(s.ledger, key, owner);
      }
    }
  }

  lemma OthersGain(env: Env, s: Chain, action: Action)
    requires !action.Send? && !action.LzReceive? && !action.Withdraw? && !action.TransferTokens?
             && !action.BurnTokens? && !action.OpenAccount?
    ensures Gains(s, action, Act(env, s, action).after, Act(env, s, action).outcome)
  {
  }

  lemma ActGains(env: Env, s: Chain, action: Action)
    requires Balanced(s.ledger)
    ensures Gains(s, action, Act(env, s, action).after, Act(env, s, action).outcome)
  {
    match action {
      case Send(accts, params) => SendGains(env, s, accts, params);
      case LzReceive(accts, params) => ReceiveGains(env, s, accts, params);
      case Withdraw(accts, feeLd) => WithdrawGains(env, s, accts, feeLd);
      case TransferTokens(_, _, _, _) => HolderGains(env, s, action);
      case BurnTokens(_, _, _) => HolderGains(env, s, action);
      case OpenAccount(_, _) => HolderGains(env, s, action);
      case _ => OthersGain(env, s, action);
    }
  }

  /** In every history no account changes hands, and each step moves every account's balance by exactly what its
      outcome says, and all others not at all. */
  lemma HistoryGains(run: History, k: nat)
    requires k < |run.steps|
    ensures Gains(run.states[k], run.steps[k].action, run.states[k + 1], run.outcomes[k])
  {
    var step := StepAt(run, k);
    HistoryIsSane(run, k);
    ActGains(run.env, run.states[k].(clock := step.at), step.action);
  }
}
