/** Exactly when the two bridge instructions succeed in a reachable state: of everything that could go wrong
    in their checked arithmetic and token calls, only the caller's own limits remain. */
module Acceptance {
  import opened Primitives
  import opened RateLimiters
  import opened LimiterTheory
  import opened Fees
  import opened Accounts
  import opened Bridge
  import opened Balances
  import opened Invariants
  import opened Effects
  import MsgCodec
  import FeeTheory
  import SendInstruction
  import LzReceiveInstruction
  import Quotes
  import WithdrawFee

  /** Two different accounts hold no more than the supply between them. */
  lemma TwoBalancesWithinSupply(l: Ledger, a: Pubkey, b: Pubkey)
    requires Balanced(l) && a in l.accounts && b in l.accounts
    ensures l.accounts[a].amount <= l.supply
    ensures a != b ==> l.accounts[a].amount + l.accounts[b].amount <= l.supply
  {
    SumWithout(l.accounts, a);
    if a != b { SumWithout(l.accounts - {a}, b); }
  }

  /** The limiter, if there is one, would let `amount` pass at `now`. */
  ghost predicate Allows(l: Option<Limiter>, now: U64, amount: nat)
    requires LimiterSane(l, now)
  {
    l.Some? ==> amount <= Available(l.value, now)
  }

  lemma PassesWhenAllowed(spend: Option<Limiter>, credit: Option<Limiter>, now: U64, amount: U64)
    requires LimiterSane(spend, now)
    ensures SendInstruction.Pass(spend, credit, now, amount).Ok? <==> Allows(spend, now, amount)
    ensures SendInstruction.Pass(spend, credit, now, amount).Err? ==>
              SendInstruction.Pass(spend, credit, now, amount).error == RateLimitExceeded
  {
    if spend.Some? { ConsumeIsExact(spend.value, now, amount); }
  }

  /** A payment succeeds exactly when the source covers what is sent: the escrow cannot overflow and the supply
      cannot run out. */
  lemma PaysWhenCovered(l: Ledger, accts: SendInstruction.SendAccounts, amounts: Amounts)
    requires Balanced(l) && l.Owns(accts.signer, accts.tokenSource)
    requires accts.tokenEscrow in l.accounts && accts.tokenEscrow != accts.tokenSource
    requires amounts.feeLd <= amounts.sentLd
    ensures SendInstruction.Pay(l, accts, amounts).Ok? <==> amounts.sentLd <= l.accounts[accts.tokenSource].amount
    ensures SendInstruction.Pay(l, accts, amounts).Err? ==> SendInstruction.Pay(l, accts, amounts).error == TokenProgram
  {
    TwoBalancesWithinSupply(l, accts.tokenSource, accts.tokenEscrow);
  }

  /** What a sender needs to bring: their own tokens, the store's escrow, the endpoint accounts in order, options
      that combine with the enforced ones, and an endpoint that dispatches. */
  ghost predicate SendReady(env: Env, s: Chain, accts: SendInstruction.SendAccounts, params: SendInstruction.SendParams)
    requires params.dstEid in s.peers
  {
    && s.ledger.Owns(accts.signer, accts.tokenSource)
    && accts.tokenEscrow == s.store.tokenEscrow
    && |accts.remaining| > 1 && accts.remaining[1] == env.storeKey
    && env.combineOptions(s.peers[params.dstEid].EnforcedOptions(params.composeMsg), params.options).Some?
    && accts.dispatch.Some?
  }

  /** In a sane state a send to a configured peer succeeds if and only if the sender brings the right accounts,
      the bridge is not paused, the received amount meets the minimum, the outbound limiter allows it and the
      source covers what is sent. */
  lemma SendSucceedsWhen(env: Env, s: Chain, accts: SendInstruction.SendAccounts, params: SendInstruction.SendParams)
    requires Sane(env, s) && params.dstEid in s.peers && accts.signer != env.storeKey
    ensures var quote := SendInstruction.Quote(s.store, s.peers[params.dstEid], s.ledger.transferFee, params.amountLd);
            var peer, now := s.peers[params.dstEid], Seconds(s.clock);
            && quote.Ok? && PeerSane(env, params.dstEid, peer, now)
            && (DoSend(env, s, accts, params).outcome.Sent? <==>
                  && SendReady(env, s, accts, params)
                  && !s.store.paused
                  && quote.value.receivedLd >= params.minAmountLd
                  && Allows(peer.outbound, now, quote.value.receivedLd)
                  && quote.value.sentLd <= s.ledger.accounts[accts.tokenSource].amount)
  {
    var peer, now := s.peers[params.dstEid], Seconds(s.clock);
    assert PeerSane(env, params.dstEid, peer, now);
    FeeTheory.NativeInSharedUnits(s.store.ld2sdRate, params.amountLd, BasisPointsInForce(s.store.defaultFeeBps, peer.feeBps));
    var amounts := SendInstruction.Quote(s.store, peer, s.ledger.transferFee, params.amountLd).value;
    PassesWhenAllowed(peer.outbound, peer.inbound, now, amounts.receivedLd);
    if SendReady(env, s, accts, params) { PaysWhenCovered(s.ledger, accts, amounts); }
  }

  /** A state in which a send can be judged, of either type of bridge: fees and limiter in their ranges, the supply
      the sum of the accounts, the escrow the store's. Every sane state is one. */
  ghost predicate Judgeable(env: Env, s: Chain, eid: U32) {
    && eid in s.peers && LimiterSane(s.peers[eid].outbound, Seconds(s.clock))
    && BasisPointsInForce(s.store.defaultFeeBps, s.peers[eid].feeBps) <= 10000
    && (s.ledger.transferFee.Some? ==> Legal(s.ledger.transferFee.value))
    && Balanced(s.ledger) && s.ledger.Owns(env.storeKey, s.store.tokenEscrow)
  }

  lemma SaneIsJudgeable(env: Env, s: Chain, eid: U32)
    requires Sane(env, s) && eid in s.peers && (s.ledger.transferFee.Some? ==> Legal(s.ledger.transferFee.value))
    ensures Judgeable(env, s, eid)
  {
    assert PeerSane(env, eid, s.peers[eid], Seconds(s.clock));
  }

  /** Every answer of a send, of either type: in this order the accounts, the pause, the minimum, the limiter, the
      balance, the store among the endpoint's accounts, and the endpoint with the options decide, and a send that
      passes all of them is sent. */
  lemma SendAnswers(env: Env, s: Chain, accts: SendInstruction.SendAccounts, params: SendInstruction.SendParams)
    requires Judgeable(env, s, params.dstEid) && accts.signer != env.storeKey
    ensures var peer, o := s.peers[params.dstEid], DoSend(env, s, accts, params).outcome;
            var quote := SendInstruction.Quote(s.store, peer, s.ledger.transferFee, params.amountLd);
            var fits := s.ledger.Owns(accts.signer, accts.tokenSource) && accts.tokenEscrow == s.store.tokenEscrow;
            var running := fits && !s.store.paused;
            var enough := running && quote.Ok? && quote.value.receivedLd >= params.minAmountLd;
            var allowed := enough && Allows(peer.outbound, Seconds(s.clock), quote.value.receivedLd);
            var covered := allowed && quote.value.sentLd <= s.ledger.accounts[accts.tokenSource].amount;
            var addressed := covered && |accts.remaining| > 1 && accts.remaining[1] == env.storeKey;
            var options := env.combineOptions(peer.EnforcedOptions(params.composeMsg), params.options);
            && quote.Ok?
            && (o == Rejected(AccountConstraint) <==> !fits)
            && (o == Rejected(Paused) <==> fits && s.store.paused)
            && (o == Rejected(SlippageExceeded) <==> running && quote.value.receivedLd < params.minAmountLd)
            && (o == Rejected(RateLimitExceeded) <==> enough && !allowed)
            && (o == Rejected(TokenProgram) <==> allowed && !covered)
            && (o == Rejected(InvalidSender) <==> covered && !addressed)
            && (o == Rejected(Error.Endpoint) <==> addressed && (options.None? || accts.dispatch.None?))
            && (o.Sent? <==> addressed && options.Some? && accts.dispatch.Some?)
  {
    var peer := s.peers[params.dstEid];
    var amounts := Quotes.QuoteNeverFails(s.store, peer, s.ledger.transferFee, params.amountLd);
    PassesWhenAllowed(peer.outbound, peer.inbound, Seconds(s.clock), amounts.receivedLd);
    if s.ledger.Owns(accts.signer, accts.tokenSource) && accts.tokenEscrow == s.store.tokenEscrow {
      PaysWhenCovered(s.ledger, accts, amounts);
    }
  }

  /** A peer that was never configured has no account: traffic with it fails on that. */
  lemma UnknownPeerAnswers(env: Env, s: Chain, sending: SendInstruction.SendAccounts, send: SendInstruction.SendParams,
                           receiving: LzReceiveInstruction.ReceiveAccounts, receive: LzReceiveInstruction.ReceiveParams)
    ensures send.dstEid !in s.peers ==> DoSend(env, s, sending, send).outcome == Rejected(AccountConstraint)
    ensures receive.srcEid !in s.peers ==> DoReceive(env, s, receiving, receive).outcome == Rejected(AccountConstraint)
  {
  }

  /** The accounts a delivery needs: the registered peer as sender, the store's escrow, the recipient named in
      the message with their own associated account, and the mint's authority. */
  ghost predicate AccountsFit(env: Env, s: Chain, accts: LzReceiveInstruction.ReceiveAccounts,
                              params: LzReceiveInstruction.ReceiveParams)
    requires params.srcEid in s.peers
  {
    && s.peers[params.srcEid].peerAddress == params.sender
    && accts.tokenEscrow == s.store.tokenEscrow
    && accts.toAddress == MsgCodec.SendTo(params.message)
    && accts.tokenDest == env.associatedAccount(accts.toAddress, s.store.tokenMint, s.ledger.tokenProgram)
    && (accts.tokenDest in s.ledger.accounts ==> s.ledger.Owns(accts.toAddress, accts.tokenDest))
    && (accts.mintAuthority.Some? ==> accts.mintAuthority == s.ledger.mintAuthority)
  }

  lemma ChecksWhenFit(env: Env, s: Chain, accts: LzReceiveInstruction.ReceiveAccounts,
                      params: LzReceiveInstruction.ReceiveParams)
    requires params.srcEid in s.peers && s.ledger.Owns(env.storeKey, s.store.tokenEscrow)
    ensures var checked := LzReceiveInstruction.CheckAccounts(env, s.store, s.peers[params.srcEid], s.ledger, accts, params);
            && (checked.Ok? <==> AccountsFit(env, s, accts, params))
            && (checked.Ok? ==> checked == s.ledger.OpenIfNeeded(accts.tokenDest, accts.toAddress))
            && (checked.Err? ==> checked.error != ArithmeticOverflow && checked.error != RateLimitExceeded)
  {
  }

  /** Which account constraint a delivery fails first. */
  function Misfit(env: Env, s: Chain, accts: LzReceiveInstruction.ReceiveAccounts,
                  params: LzReceiveInstruction.ReceiveParams): Option<Error>
    requires params.srcEid in s.peers
  {
    if params.sender != s.peers[params.srcEid].peerAddress then Some(InvalidSender)
    else if accts.tokenEscrow != s.store.tokenEscrow then Some(AccountConstraint)
    else if MsgCodec.SendTo(params.message) != accts.toAddress then Some(InvalidTokenDest)
    else if accts.tokenDest != env.associatedAccount(accts.toAddress, s.store.tokenMint, s.ledger.tokenProgram)
    then Some(AccountConstraint)
    else if accts.tokenDest in s.ledger.accounts && s.ledger.accounts[accts.tokenDest].owner != accts.toAddress
    then Some(AccountConstraint)
    else if accts.mintAuthority.Some? && accts.mintAuthority != s.ledger.mintAuthority then Some(InvalidMintAuthority)
    else None
  }

  lemma ChecksByMisfit(env: Env, s: Chain, accts: LzReceiveInstruction.ReceiveAccounts,
                       params: LzReceiveInstruction.ReceiveParams)
    requires params.srcEid in s.peers && s.ledger.Owns(env.storeKey, s.store.tokenEscrow)
    ensures var checked := LzReceiveInstruction.CheckAccounts(env, s.store, s.peers[params.srcEid], s.ledger, accts, params);
            && (Misfit(env, s, accts, params).Some? ==> checked == Err(Misfit(env, s, accts, params).value))
            && (Misfit(env, s, accts, params).None? <==> AccountsFit(env, s, accts, params))
  {
  }

  /** A delivery is in order up to its limits and amounts. */
  ghost predicate ReceiveReady(env: Env, s: Chain, accts: LzReceiveInstruction.ReceiveAccounts,
                               params: LzReceiveInstruction.ReceiveParams)
    requires params.srcEid in s.peers
  {
    && AccountsFit(env, s, accts, params)
    && |params.message| >= MsgCodec.COMPOSE_MSG_OFFSET
    && !s.store.paused
    && |accts.remaining| >= LzReceiveInstruction.CLEAR_ACCOUNTS
    && Packet(params.srcEid, params.sender, env.localEid, env.storeKey, params.nonce, params.guid, params.message)
       in s.mailbox.inFlight
  }

  lemma MintsWhenSupplyFits(l: Ledger, accts: LzReceiveInstruction.ReceiveAccounts, amount: U64)
    requires Balanced(l) && accts.tokenDest in l.accounts && accts.mintAuthority.Some?
    requires l.mintAuthority == accts.mintAuthority
    ensures l.Mint(accts.tokenDest, accts.mintAuthority.value, amount).Ok? <==> l.supply + amount <= U64_MAX
    ensures l.Mint(accts.tokenDest, accts.mintAuthority.value, amount).Err? ==>
              l.Mint(accts.tokenDest, accts.mintAuthority.value, amount).error == TokenProgram
  {
    TwoBalancesWithinSupply(l, accts.tokenDest, accts.tokenDest);
  }

  lemma ConvertsWhenFits(rate: Rate, amountSd: U64)
    ensures 0 <= rate * amountSd
    ensures Sd2Ld(rate, amountSd) == if rate * amountSd <= U64_MAX then Ok(rate * amountSd) else Err(ArithmeticOverflow)
  {
    FeeTheory.SharedUnitsRoundTrip(rate, amountSd);
  }

  /** When what follows the clearing of a packet succeeds, given what its amount converts to. */
  lemma SettlesWhen(rate: Rate, peer: Peer, ready: Ledger, mailbox: Mailbox, accts: LzReceiveInstruction.ReceiveAccounts,
                    params: LzReceiveInstruction.ReceiveParams, packet: Packet, now: U64)
    requires LimiterSane(peer.inbound, now)
    requires Balanced(ready) && accts.tokenDest in ready.accounts
    requires accts.mintAuthority.Some? ==> ready.mintAuthority == accts.mintAuthority
    ensures var converted := Sd2Ld(rate, MsgCodec.AmountSd(params.message));
            var settled := LzReceiveInstruction.Settle(rate, peer, ready, mailbox, accts, params, packet, now);
            && (settled.Ok? <==>
                  && converted.Ok? && Allows(peer.inbound, now, converted.value)
                  && accts.mintAuthority.Some? && ready.supply + converted.value <= U64_MAX
                  && (MsgCodec.ComposeMsg(params.message).Some? ==> accts.composeAccepted))
            && (settled == Err(ArithmeticOverflow) <==> converted == Err(ArithmeticOverflow))
            && (settled == Err(RateLimitExceeded) <==> converted.Ok? && !Allows(peer.inbound, now, converted.value))
            && (converted.Ok? && Allows(peer.inbound, now, converted.value) ==>
                  && (accts.mintAuthority.None? ==> settled == Err(InvalidMintAuthority))
                  && (accts.mintAuthority.Some? && ready.supply + converted.value > U64_MAX ==> settled == Err(TokenProgram))
                  && (accts.mintAuthority.Some? && ready.supply + converted.value <= U64_MAX
                      && MsgCodec.ComposeMsg(params.message).Some? && !accts.composeAccepted
                      ==> settled == Err(Error.Endpoint)))
  {
    var converted := Sd2Ld(rate, MsgCodec.AmountSd(params.message));
    if converted.Ok? {
      PassesWhenAllowed(peer.inbound, peer.outbound, now, converted.value);
      if accts.mintAuthority.Some? { MintsWhenSupplyFits(ready, accts, converted.value); }
    }
  }

  /** In a sane state a delivery from a configured peer succeeds if and only if everything about it is in order,
      its worth fits in 64 bits, the inbound limiter allows it, the supply does not overflow, there is a mint
      authority and the endpoint takes the compose message, if any; an overflow or an exhausted limiter is
      named as such. */
  lemma ReceiveSucceedsWhen(env: Env, s: Chain, accts: LzReceiveInstruction.ReceiveAccounts,
                            params: LzReceiveInstruction.ReceiveParams)
    requires Sane(env, s) && params.srcEid in s.peers
    ensures var worth := Worth(s.store.ld2sdRate, LzReceiveInstruction.ClearedPacket(env, params));
            var peer, now := s.peers[params.srcEid], Seconds(s.clock);
            var outcome := DoReceive(env, s, accts, params).outcome;
            && 0 <= worth && PeerSane(env, params.srcEid, peer, now)
            && (outcome.Received? <==>
                  && ReceiveReady(env, s, accts, params)
                  && worth <= U64_MAX && Allows(peer.inbound, now, worth)
                  && accts.mintAuthority.Some? && s.ledger.supply + worth <= U64_MAX
                  && (MsgCodec.ComposeMsg(params.message).Some? ==> accts.composeAccepted))
            && (outcome == Rejected(ArithmeticOverflow) <==> ReceiveReady(env, s, accts, params) && worth > U64_MAX)
            && (outcome == Rejected(RateLimitExceeded) <==>
                  ReceiveReady(env, s, accts, params) && worth <= U64_MAX && !Allows(peer.inbound, now, worth))
  {
    assert PeerSane(env, params.srcEid, s.peers[params.srcEid], Seconds(s.clock));
    ConvertsWhenFits(s.store.ld2sdRate, MsgCodec.AmountSd(params.message));
    ChecksWhenFit(env, s, accts, params);
    if AccountsFit(env, s, accts, params) {
      OpenMoves(s.ledger, accts.tokenDest, accts.toAddress);
      var packet := LzReceiveInstruction.ClearedPacket(env, params);
      SettlesWhen(s.store.ld2sdRate, s.peers[params.srcEid], s.ledger.OpenIfNeeded(accts.tokenDest, accts.toAddress).value,
                  s.mailbox.(inFlight := s.mailbox.inFlight - multiset{packet}), accts, params, packet, Seconds(s.clock));
    }
  }

  /** Every answer of a delivery from a configured peer: in this order the accounts, the length of the message, the
      pause, the number of accounts for `clear`, the packet, the amount, the limiter, the mint authority, the
      supply and the compose message decide, and a delivery that passes all of them is received. */
  lemma ReceiveAnswers(env: Env, s: Chain, accts: LzReceiveInstruction.ReceiveAccounts,
                       params: LzReceiveInstruction.ReceiveParams)
    requires Sane(env, s) && params.srcEid in s.peers
    ensures var peer, now := s.peers[params.srcEid], Seconds(s.clock);
            var packet := Packet(params.srcEid, params.sender, env.localEid, env.storeKey, params.nonce, params.guid,
                                 params.message);
            var worth := Worth(s.store.ld2sdRate, packet);
            && 0 <= worth && PeerSane(env, params.srcEid, peer, now)
            && DoReceive(env, s, accts, params).outcome.Received?
               == (&& Misfit(env, s, accts, params).None? && |params.message| >= 40 && !s.store.paused
                   && |accts.remaining| >= 9 && packet in s.mailbox.inFlight
                   && worth <= U64_MAX && Allows(peer.inbound, now, worth) && accts.mintAuthority.Some?
                   && s.ledger.supply + worth <= U64_MAX && (|params.message| > 40 ==> accts.composeAccepted))
            && (!DoReceive(env, s, accts, params).outcome.Received? ==>
                  DoReceive(env, s, accts, params).outcome == Rejected(
                    if Misfit(env, s, accts, params).Some? then Misfit(env, s, accts, params).value
                    else if |params.message| < 40 then InvalidMessage
                    else if s.store.paused then Paused
                    else if |accts.remaining| < 9 then Panic
                    else if packet !in s.mailbox.inFlight then Error.Endpoint
                    else if worth > U64_MAX then ArithmeticOverflow
                    else if !Allows(peer.inbound, now, worth) then RateLimitExceeded
                    else if accts.mintAuthority.None? then InvalidMintAuthority
                    else if s.ledger.supply + worth > U64_MAX then TokenProgram
                    else Error.Endpoint))
  {
    assert PeerSane(env, params.srcEid, s.peers[params.srcEid], Seconds(s.clock));
    ConvertsWhenFits(s.store.ld2sdRate, MsgCodec.AmountSd(params.message));
    ChecksWhenFit(env, s, accts, params);
    ChecksByMisfit(env, s, accts, params);
    MsgCodec.ReadsLayout(params.message);
    if AccountsFit(env, s, accts, params) {
      OpenMoves(s.ledger, accts.tokenDest, accts.toAddress);
      var packet := LzReceiveInstruction.ClearedPacket(env, params);
      SettlesWhen(s.store.ld2sdRate, s.peers[params.srcEid], s.ledger.OpenIfNeeded(accts.tokenDest, accts.toAddress).value,
                  s.mailbox.(inFlight := s.mailbox.inFlight - multiset{packet}), accts, params, packet, Seconds(s.clock));
    }
  }

  /** Every answer of a withdrawal, of either type: the admin, the accounts, and the escrow balance above what is
      locked decide, and a withdrawal that passes all of them goes through. */
  lemma WithdrawAnswers(env: Env, s: Chain, accts: WithdrawFee.WithdrawAccounts, feeLd: U64)
    requires Balanced(s.ledger) && s.ledger.Owns(env.storeKey, s.store.tokenEscrow)
    ensures var o := Act(env, s, Withdraw(accts, feeLd)).outcome;
            var fits := accts.tokenEscrow == s.store.tokenEscrow && accts.tokenDest in s.ledger.accounts;
            o == if accts.admin != s.store.admin then Rejected(Unauthorized)
                 else if !fits then Rejected(AccountConstraint)
                 else if s.store.tvlLd + feeLd > s.ledger.accounts[accts.tokenEscrow].amount then Rejected(InvalidFee)
                 else Withdrawn(feeLd, accts.tokenDest)
  {
    if accts.tokenEscrow == s.store.tokenEscrow && accts.tokenDest in s.ledger.accounts {
      TwoBalancesWithinSupply(s.ledger, accts.tokenEscrow, accts.tokenDest);
    }
  }

  /** The amounts of every send in every history: whole shared units, at least one unless nothing is sent, and
      exactly recoverable by the receiver. */
  lemma HistorySentAmounts(run: History, i: nat)
    requires i < |run.steps| && run.outcomes[i].Sent?
    ensures var sent, rate := run.outcomes[i].sent, run.states[0].store.ld2sdRate;
            var units := MsgCodec.AmountSd(sent.packet.message);
            && sent.amounts.sentLd == sent.amounts.receivedLd + sent.amounts.feeLd
            && Sd2Ld(rate, units) == Ok(sent.amounts.receivedLd)
            && (sent.amounts.sentLd > 0 ==> units >= 1)
  {
    HistoryIsSane(run, i);
    var s, step := run.states[i], StepAt(run, i);
    TimeKeepsSane(run.env, s, step.at);
    SentAmounts(run.env, s.(clock := step.at), step.action.sendAccounts, step.action.sendParams);
  }
}
