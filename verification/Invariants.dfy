/** What holds in every reachable state of a Native bridge. */
module Invariants {
  import opened Primitives
  import opened RateLimiters
  import opened LimiterTheory
  import opened Fees
  import opened Accounts
  import opened Bridge
  import opened Balances
  import SendInstruction
  import LzReceiveInstruction
  import SetPeerConfig
  import InitOft

  ghost predicate StoreSane(s: Store) {
    s.oftType.Native? && s.tvlLd == 0 && s.defaultFeeBps < MAX_FEE_BASIS_POINTS
  }

  ghost predicate LimiterSane(l: Option<Limiter>, now: int) {
    l.Some? ==> Bounded(l.value) && l.value.lastRefillTime <= now
  }

  /** A peer's fee is below 100 %, its limiters are bounded and not ahead of the clock, and its address is
      unset or that of the mesh member. */
  ghost predicate PeerSane(env: Env, eid: U32, p: Peer, now: int) {
    && (p.feeBps.Some? ==> p.feeBps.value < MAX_FEE_BASIS_POINTS)
    && LimiterSane(p.outbound, now) && LimiterSane(p.inbound, now)
    && (p.peerAddress != ZERO32 ==> eid in env.mesh && env.mesh[eid] == p.peerAddress)
  }

  ghost predicate PeersSane(env: Env, peers: map<U32, Peer>, now: int) {
    forall eid | eid in peers :: PeerSane(env, eid, peers[eid], now)
  }

  ghost predicate SendersReal(packets: multiset<Packet>) {
    forall p | p in packets :: p.sender != ZERO32
  }

  ghost predicate Sane(env: Env, s: Chain) {
    && StoreSane(s.store)
    && PeersSane(env, s.peers, Seconds(s.clock))
    && s.ledger.Owns(env.storeKey, s.store.tokenEscrow)
    && Balanced(s.ledger)
    && SendersReal(s.mailbox.inFlight)
    && s.others >= 0
  }

  /** What `init_oft` leaves in a Native store, besides the data it was given. */
  ghost predicate FreshNative(s: Store) {
    && s.oftType.Native? && s.tvlLd == 0 && s.defaultFeeBps == 0
    && !s.paused && s.pauser == None && s.unpauser == None && s.pendingAdmin == None
  }

  lemma InitIsFresh(accts: InitOft.InitAccounts, params: InitOft.InitParams)
    requires InitOft.Init(accts, params).Ok? && params.oftType.Native?
    ensures FreshNative(InitOft.Init(accts, params).value)
    ensures InitOft.Init(accts, params).value.admin == params.admin
    ensures InitOft.Init(accts, params).value.developer == accts.payer
    ensures InitOft.Init(accts, params).value.developerEnabled
  {
  }

  /** The state right after a successful Native `init_oft`: no peers, no supply, no packets. */
  ghost predicate Genesis(env: Env, s: Chain) {
    && FreshNative(s.store)
    && s.peers == map[]
    && s.ledger.supply == 0 && (forall k | k in s.ledger.accounts :: s.ledger.accounts[k].amount == 0)
    && s.ledger.Owns(env.storeKey, s.store.tokenEscrow)
    && s.mailbox == Mailbox(multiset{}, multiset{})
    && s.others >= 0
  }

  /** What is written only at initialisation. */
  ghost predicate SameFixed(s: Chain, t: Chain) {
    && s.store.oftType == t.store.oftType && s.store.ld2sdRate == t.store.ld2sdRate
    && s.store.tokenMint == t.store.tokenMint && s.store.tokenEscrow == t.store.tokenEscrow
    && s.store.endpointProgram == t.store.endpointProgram && s.store.tvlLd == t.store.tvlLd
    && s.ledger.mintAuthority == t.ledger.mintAuthority && s.ledger.tokenProgram == t.ledger.tokenProgram
    && s.ledger.transferFee == t.ledger.transferFee
  }

  // ---- Peers and limiters --------------------------------------------------------------------------------------

  lemma PassKeepsSane(spend: Option<Limiter>, credit: Option<Limiter>, now: U64, amount: U64)
    requires SendInstruction.Pass(spend, credit, now, amount).Ok?
    ensures var pair := SendInstruction.Pass(spend, credit, now, amount).value;
            LimiterSane(pair.spent, now) && LimiterSane(pair.credited, now)
  {
    if spend.Some? { EveryOperationBounds(spend.value, now, amount); }
    if credit.Some? { EveryOperationBounds(credit.value, now, amount); }
  }

  lemma UpdateKeepsSane(limiter: Option<Limiter>, params: Option<SetPeerConfig.RateLimitParams>, now: U64)
    requires LimiterSane(limiter, now)
    ensures LimiterSane(SetPeerConfig.UpdatedLimiter(limiter, params, now), now)
  {
  }

  lemma ConfigureKeepsSane(env: Env, store: Store, eid: U32, peer: Peer, authority: Pubkey,
                           change: SetPeerConfig.PeerChange, now: U64)
    requires PeerSane(env, eid, peer, now)
    requires change.PeerAddress? && change.address != ZERO32 ==> eid in env.mesh && env.mesh[eid] == change.address
    requires SetPeerConfig.Configure(store, peer, authority, change, now).Ok?
    ensures PeerSane(env, eid, SetPeerConfig.Configure(store, peer, authority, change, now).value, now)
  {
    match change {
      case OutboundRateLimit(params) => UpdateKeepsSane(peer.outbound, params, now);
      case InboundRateLimit(params) => UpdateKeepsSane(peer.inbound, params, now);
      case _ =>
    }
  }

  lemma WritePeerKeepsSane(env: Env, peers: map<U32, Peer>, eid: U32, peer: Peer, now: int)
    requires PeersSane(env, peers, now) && PeerSane(env, eid, peer, now)
    ensures PeersSane(env, peers[eid := peer], now)
  {
  }

  lemma TimeKeepsSane(env: Env, s: Chain, at: I64)
    requires Sane(env, s) && s.clock <= at
    ensures Sane(env, s.(clock := at))
  {
    forall eid | eid in s.peers ensures PeerSane(env, eid, s.peers[eid], Seconds(at)) {
      assert PeerSane(env, eid, s.peers[eid], Seconds(s.clock));
    }
  }

  // ---- Ledger effects of the two bridge steps --------------------------------------------------------------------

  /** A payment burns what is received, moves the fee to escrow and touches no other account. */
  lemma PayMoves(l: Ledger, accts: SendInstruction.SendAccounts, amounts: Amounts)
    requires Balanced(l) && SendInstruction.Pay(l, accts, amounts).Ok?
    ensures amounts.feeLd <= amounts.sentLd
    ensures var m := SendInstruction.Pay(l, accts, amounts).value;
            && Balanced(m) && KeepsOwners(l, m) && m.supply == l.supply - (amounts.sentLd - amounts.feeLd)
            && forall k :: m.Balance(k) == l.Balance(k) - (if k == accts.tokenSource then amounts.sentLd else 0)
                                                        + (if k == accts.tokenEscrow then amounts.feeLd else 0)
  {
    var burnt := l.Burn(accts.tokenSource, accts.signer, amounts.sentLd - amounts.feeLd).value;
    BurnMoves(l, accts.tokenSource, accts.signer, amounts.sentLd - amounts.feeLd);
    if amounts.feeLd > 0 {
      TransferMoves(burnt, accts.tokenSource, accts.tokenEscrow, accts.signer, amounts.feeLd);
    }
  }

  /** A receipt mints exactly its amount to the recipient's account and touches no other. */
  lemma ReceiveMoves(env: Env, s: Chain, accts: LzReceiveInstruction.ReceiveAccounts,
                     params: LzReceiveInstruction.ReceiveParams, peer: Peer, now: U64)
    requires Balanced(s.ledger)
    requires LzReceiveInstruction.Receive(env, s.store, peer, s.ledger, s.mailbox, accts, params, now).Ok?
    ensures var effect := LzReceiveInstruction.Receive(env, s.store, peer, s.ledger, s.mailbox, accts, params, now).value;
            && Balanced(effect.ledger) && KeepsOwners(s.ledger, effect.ledger)
            && effect.ledger.supply == s.ledger.supply + effect.receipt.amountLd
            && forall k :: effect.ledger.Balance(k)
                        == s.ledger.Balance(k) + (if k == accts.tokenDest then effect.receipt.amountLd else 0)
  {
    var ready := LzReceiveInstruction.CheckAccounts(env, s.store, peer, s.ledger, accts, params).value;
    OpenMoves(s.ledger, accts.tokenDest, accts.toAddress);
    var amountLd := LzReceiveInstruction.Receive(env, s.store, peer, s.ledger, s.mailbox, accts, params, now).value.receipt.amountLd;
    MintMoves(ready, accts.tokenDest, accts.mintAuthority.value, amountLd);
  }

  // ---- Every step keeps the invariant ---------------------------------------------------------------------------

  lemma SendKeepsSane(env: Env, s: Chain, accts: SendInstruction.SendAccounts, params: SendInstruction.SendParams)
    requires WellFormed(env) && Sane(env, s)
    ensures Sane(env, DoSend(env, s, accts, params).after)
  {
    var t := DoSend(env, s, accts, params);
    if t.outcome.Sent? {
      var peer, now := s.peers[params.dstEid], Seconds(s.clock);
      var amounts := t.outcome.sent.amounts;
      PassKeepsSane(peer.outbound, peer.inbound, now, amounts.receivedLd);
      PayMoves(s.ledger, accts, amounts);
      assert PeerSane(env, params.dstEid, peer, now);
      WritePeerKeepsSane(env, s.peers, params.dstEid, t.after.peers[params.dstEid], now);
    }
  }

  lemma ReceiveKeepsSane(env: Env, s: Chain, accts: LzReceiveInstruction.ReceiveAccounts,
                         params: LzReceiveInstruction.ReceiveParams)
    requires Sane(env, s)
    ensures Sane(env, DoReceive(env, s, accts, params).after)
  {
    var t := DoReceive(env, s, accts, params);
    if t.outcome.Received? {
      var peer, now := s.peers[params.srcEid], Seconds(s.clock);
      PassKeepsSane(peer.inbound, peer.outbound, now, t.outcome.received.amountLd);
      ReceiveMoves(env, s, accts, params, peer, now);
      assert PeerSane(env, params.srcEid, peer, now);
      WritePeerKeepsSane(env, s.peers, params.srcEid, t.after.peers[params.srcEid], now);
    }
  }

  lemma ConfigureKeepsChainSane(env: Env, s: Chain, authority: Pubkey, eid: U32, change: SetPeerConfig.PeerChange)
    requires Sane(env, s)
    requires change.PeerAddress? && change.address != ZERO32 ==> eid in env.mesh && env.mesh[eid] == change.address
    ensures Sane(env, DoConfigurePeer(s, authority, eid, change).after)
  {
    var t := DoConfigurePeer(s, authority, eid, change);
    if t.outcome.Configured? {
      ConfigureKeepsSane(env, s.store, eid, PeerOrDefault(s, eid), authority, change, Seconds(s.clock));
      WritePeerKeepsSane(env, s.peers, eid, t.after.peers[eid], Seconds(s.clock));
    }
  }

  lemma LedgerStepKeepsSane(env: Env, s: Chain, action: Action)
    requires Sane(env, s)
    requires action.Withdraw? || action.TransferTokens? || action.BurnTokens? || action.OpenAccount?
    ensures Sane(env, Act(env, s, action).after)
  {
    if !Act(env, s, action).outcome.Rejected? {
      match action {
        case Withdraw(accts, feeLd) => TransferMoves(s.ledger, accts.tokenEscrow, accts.tokenDest, env.storeKey, feeLd);
        case TransferTokens(owner, from, to, amount) => TransferMoves(s.ledger, from, to, owner, amount);
        case BurnTokens(owner, from, amount) => BurnMoves(s.ledger, from, owner, amount);
        case OpenAccount(key, owner) => OpenMoves(s.ledger, key, owner);
      }
    }
  }

  lemma ElsewhereKeepsSane(env: Env, s: Chain, action: Action)
    requires WellFormed(env) && Sane(env, s)
    requires action.MemberSend? || action.MemberReceive? || action.StrangerSend?
    ensures Sane(env, DoElsewhere(env, s, action).after)
  {
    WorthNonNegative(s.store.ld2sdRate, action.packet);
  }

  lemma WorthNonNegative(rate: Rate, p: Packet)
    ensures Worth(rate, p) >= 0
  {
  }

  lemma StoreStepKeepsSane(env: Env, s: Chain, action: Action)
    requires Sane(env, s)
    requires action.ConfigureStore? || action.Pause? || action.AcceptAdmin?
    ensures Sane(env, Act(env, s, action).after)
  {
  }

  lemma ActKeepsSane(env: Env, s: Chain, action: Action)
    requires WellFormed(env) && Sane(env, s) && Assumed(env, action)
    ensures Sane(env, Act(env, s, action).after)
  {
    if action.Send? {
      SendKeepsSane(env, s, action.sendAccounts, action.sendParams);
    } else if action.LzReceive? {
      ReceiveKeepsSane(env, s, action.receiveAccounts, action.receiveParams);
    } else if action.ConfigurePeer? {
      ConfigureKeepsChainSane(env, s, action.authority, action.remoteEid, action.peerChange);
    } else if action.ConfigureStore? || action.Pause? || action.AcceptAdmin? {
      StoreStepKeepsSane(env, s, action);
    } else if action.MemberSend? || action.MemberReceive? || action.StrangerSend? {
      ElsewhereKeepsSane(env, s, action);
    } else {
      LedgerStepKeepsSane(env, s, action);
    }
  }

  lemma StepKeepsSane(env: Env, s: Chain, step: Step)
    requires WellFormed(env) && Sane(env, s) && s.clock <= step.at && Assumed(env, step.action)
    ensures Sane(env, Next(env, s, step).after)
  {
    TimeKeepsSane(env, s, step.at);
    ActKeepsSane(env, s.(clock := step.at), step.action);
  }

  // ---- Fields written only at initialisation ------------------------------------------------------------------

  ghost predicate SameMint(l: Ledger, m: Ledger) {
    l.mintAuthority == m.mintAuthority && l.tokenProgram == m.tokenProgram && l.transferFee == m.transferFee
  }

  lemma SendKeepsMint(env: Env, store: Store, peer: Peer, ledger: Ledger, mailbox: Mailbox,
                      accts: SendInstruction.SendAccounts, params: SendInstruction.SendParams, now: U64)
    requires SendInstruction.Send(env, store, peer, ledger, mailbox, accts, params, now).Ok?
    ensures SameMint(ledger, SendInstruction.Send(env, store, peer, ledger, mailbox, accts, params, now).value.ledger)
  {
  }

  lemma ReceiveKeepsMint(env: Env, store: Store, peer: Peer, ledger: Ledger, mailbox: Mailbox,
                         accts: LzReceiveInstruction.ReceiveAccounts, params: LzReceiveInstruction.ReceiveParams, now: U64)
    requires LzReceiveInstruction.Receive(env, store, peer, ledger, mailbox, accts, params, now).Ok?
    ensures SameMint(ledger, LzReceiveInstruction.Receive(env, store, peer, ledger, mailbox, accts, params, now).value.ledger)
  {
  }

  lemma StepKeepsFixed(env: Env, s: Chain, step: Step)
    ensures SameFixed(s, Next(env, s, step).after)
  {
    var now := Seconds(step.at);
    if Next(env, s, step).outcome.Sent? {
      var eid := step.action.sendParams.dstEid;
      SendKeepsMint(env, s.store, s.peers[eid], s.ledger, s.mailbox, step.action.sendAccounts, step.action.sendParams, now);
    } else if Next(env, s, step).outcome.Received? {
      var eid := step.action.receiveParams.srcEid;
      ReceiveKeepsMint(env, s.store, s.peers[eid], s.ledger, s.mailbox,
                       step.action.receiveAccounts, step.action.receiveParams, now);
    }
  }

  lemma GenesisIsSane(env: Env, s: Chain)
    requires Genesis(env, s)
    ensures Sane(env, s)
  {
    SumOfZeros(s.ledger.accounts);
  }

  // ---- Runs -----------------------------------------------------------------------------------------------------

  lemma RunStepSane(run: Run, i: nat)
    requires i < |run.steps| && Sane(run.env, run.states[i])
    ensures Sane(run.env, run.states[i + 1])
  {
    StepKeepsSane(run.env, run.states[i], StepAt(run, i));
  }

  /** Every state of every run from a sane one is sane. */
  lemma {:induction false} RunKeepsSane(run: Run, i: nat, j: nat)
    requires i <= j <= |run.steps| && Sane(run.env, run.states[i])
    ensures Sane(run.env, run.states[j])
    decreases j
  {
    if i < j {
      RunKeepsSane(run, i, j - 1);
      RunStepSane(run, j - 1);
    }
  }

  lemma RunStepFixed(run: Run, i: nat)
    requires i < |run.steps|
    ensures SameFixed(run.states[i], run.states[i + 1]) && run.states[i].clock <= run.states[i + 1].clock
  {
    StepKeepsFixed(run.env, run.states[i], StepAt(run, i));
    ClockFollows(run.env, run.states[i], StepAt(run, i));
  }

  /** Nothing written at initialisation ever changes, and time does not go back. */
  lemma {:induction false} RunKeepsFixed(run: Run, i: nat, j: nat)
    requires i <= j <= |run.steps|
    ensures SameFixed(run.states[i], run.states[j]) && run.states[i].clock <= run.states[j].clock
    decreases j
  {
    if i < j {
      RunKeepsFixed(run, i, j - 1);
      RunStepFixed(run, j - 1);
    }
  }

  // ---- Histories: runs from initialisation -------------------------------------------------------------------------

  type History = run: Run | Genesis(run.env, run.states[0]) ghost witness Birth()

  /** The history of a store that has just been initialised. */
  ghost function Birth(): (run: Run)
    ensures Genesis(run.env, run.states[0])
  {
    var still: Run := StillRun();
    var accts := InitOft.InitAccounts(ZERO32, ZERO32, 6, ZERO32, ZERO32, true);
    var params := InitOft.InitParams(Native, ZERO32, 6, None);
    var store := InitOft.InitialStore(1, accts, params);
    var ledger := Ledger(map[ZERO32 := TokenAccount(still.env.storeKey, 0)], 0, None, ZERO32, None);
    Trace(still.env, [Chain(store, map[], ledger, Mailbox(multiset{}, multiset{}), 0, 0)], [], [])
  }

  /** Every state of a history is sane, with the data written at initialisation. */
  lemma HistoryIsSane(run: History, i: nat)
    requires i <= |run.steps|
    ensures Sane(run.env, run.states[i]) && SameFixed(run.states[0], run.states[i])
  {
    GenesisIsSane(run.env, run.states[0]);
    RunKeepsSane(run, 0, i);
    RunKeepsFixed(run, 0, i);
  }

  /** In every reachable state each fee in force is below 100 %, every limiter holds at most its capacity and
      no limiter is ahead of the clock. */
  lemma ReachableConfiguration(run: History, i: nat, eid: U32)
    requires i <= |run.steps| && eid in run.states[i].peers
    ensures var s, peer := run.states[i], run.states[i].peers[eid];
            && BasisPointsInForce(s.store.defaultFeeBps, peer.feeBps) < MAX_FEE_BASIS_POINTS
            && LimiterSane(peer.outbound, Seconds(s.clock)) && LimiterSane(peer.inbound, Seconds(s.clock))
  {
    HistoryIsSane(run, i);
    assert PeerSane(run.env, eid, run.states[i].peers[eid], Seconds(run.states[i].clock));
  }
}
