/** The runtime: an instruction runs in place on accounts loaded from the chain, which are written back only
    when it succeeds. This is Anchor's load, apply, exit, and the reason a failed transaction has no effect. */
module Runtime {
  import opened Primitives
  import opened RateLimiters
  import opened Accounts
  import opened Bridge
  import SendInstruction
  import LzReceiveInstruction
  import SetPeerConfig
  import StoreConfig
  import WithdrawFee

  class Bank {
    var chain: Chain

    constructor (chain: Chain)
      ensures this.chain == chain
    {
      this.chain := chain;
    }

    method RunSend(env: Env, accts: SendInstruction.SendAccounts, params: SendInstruction.SendParams)
      returns (outcome: Outcome)
      modifies this
      ensures Transition(chain, outcome) == DoSend(env, old(chain), accts, params)
    {
      if params.dstEid !in chain.peers {
        return Rejected(AccountConstraint);
      }
      var store := new OftStore.Load(chain.store);
      var peer := new PeerConfig.Load(chain.peers[params.dstEid]);
      var ledger := new TokenLedger.Load(chain.ledger);
      var endpoint := new Endpoint.Load(chain.mailbox);
      var r := SendInstruction.Apply(env, store, peer, ledger, endpoint, accts, params, chain.clock);
      if r.Err? {
        return Rejected(r.error);
      }
      chain := chain.(peers := chain.peers[params.dstEid := peer.State()], ledger := ledger.State(), mailbox := endpoint.State());
      return Sent(params.dstEid, r.value);
    }

    method RunReceive(env: Env, accts: LzReceiveInstruction.ReceiveAccounts, params: LzReceiveInstruction.ReceiveParams)
      returns (outcome: Outcome)
      modifies this
      ensures Transition(chain, outcome) == DoReceive(env, old(chain), accts, params)
    {
      if params.srcEid !in chain.peers {
        return Rejected(AccountConstraint);
      }
      var store := new OftStore.Load(chain.store);
      var peer := new PeerConfig.Load(chain.peers[params.srcEid]);
      var ledger := new TokenLedger.Load(chain.ledger);
      var endpoint := new Endpoint.Load(chain.mailbox);
      var r := LzReceiveInstruction.Apply(env, store, peer, ledger, endpoint, accts, params, chain.clock);
      if r.Err? {
        return Rejected(r.error);
      }
      chain := chain.(peers := chain.peers[params.srcEid := peer.State()], ledger := ledger.State(), mailbox := endpoint.State());
      return Received(r.value, accts.tokenDest);
    }

    method RunConfigurePeer(authority: Pubkey, eid: U32, change: SetPeerConfig.PeerChange) returns (outcome: Outcome)
      modifies this
      ensures Transition(chain, outcome) == DoConfigurePeer(old(chain), authority, eid, change)
    {
      var store := new OftStore.Load(chain.store);
      var peer := new PeerConfig.Load(PeerOrDefault(chain, eid));
      var r := SetPeerConfig.Apply(store, peer, authority, change, chain.clock);
      if r.Err? {
        return Rejected(r.error);
      }
      chain := chain.(peers := chain.peers[eid := peer.State()]);
      return Configured;
    }

    method RunWithdraw(env: Env, accts: WithdrawFee.WithdrawAccounts, feeLd: U64) returns (outcome: Outcome)
      modifies this
      ensures Transition(chain, outcome) == Act(env, old(chain), Withdraw(accts, feeLd))
    {
      var store := new OftStore.Load(chain.store);
      var ledger := new TokenLedger.Load(chain.ledger);
      var r := WithdrawFee.Apply(env, store, ledger, accts, feeLd);
      if r.Err? {
        return Rejected(r.error);
      }
      chain := chain.(ledger := ledger.State());
      return Withdrawn(feeLd, accts.tokenDest);
    }

    method RunStoreChange(env: Env, action: Action) returns (outcome: Outcome)
      requires action.ConfigureStore? || action.Pause? || action.AcceptAdmin?
      modifies this
      ensures Transition(chain, outcome) == Act(env, old(chain), action)
    {
      var store := new OftStore.Load(chain.store);
      var r;
      match action {
        case ConfigureStore(signer, change) =>
          r := StoreConfig.ApplySetConfig(store, signer, change);
        case Pause(signer, paused) =>
          r := StoreConfig.ApplySetPause(store, signer, paused);
        case AcceptAdmin(nominee) =>
          r := StoreConfig.ApplyAcceptAdmin(store, nominee);
      }
      if r.Err? {
        return Rejected(r.error);
      }
      chain := chain.(store := store.State());
      return Configured;
    }

    method RunTokenProgram(env: Env, action: Action) returns (outcome: Outcome)
      requires action.TransferTokens? || action.BurnTokens? || action.OpenAccount?
      modifies this
      ensures Transition(chain, outcome) == Act(env, old(chain), action)
    {
      var ledger := new TokenLedger.Load(chain.ledger);
      var r;
      match action {
        case TransferTokens(owner, from, to, amount) =>
          r := ledger.Transfer(from, to, owner, amount);
          outcome := Transferred(from, to, amount);
        case BurnTokens(owner, from, amount) =>
          r := ledger.Burn(from, owner, amount);
          outcome := Burned(amount);
        case OpenAccount(key, owner) =>
          r := ledger.OpenIfNeeded(key, owner);
          outcome := Opened;
      }
      if r.Err? {
        return Rejected(r.error);
      }
      chain := chain.(ledger := ledger.State());
    }

    /** One step of the bridge, run in place: the bank and its answer are exactly the state machine's. */
    method Execute(env: Env, step: Step) returns (outcome: Outcome)
      modifies this
      ensures Transition(chain, outcome) == Next(env, old(chain), step)
    {
      chain := chain.(clock := step.at);
      match step.action {
        case Send(accts, params) =>
          outcome := RunSend(env, accts, params);
        case LzReceive(accts, params) =>
          outcome := RunReceive(env, accts, params);
        case Withdraw(accts, feeLd) =>
          outcome := RunWithdraw(env, accts, feeLd);
        case ConfigurePeer(authority, eid, change) =>
          outcome := RunConfigurePeer(authority, eid, change);
        case ConfigureStore(_, _) =>
          outcome := RunStoreChange(env, step.action);
        case Pause(_, _) =>
          outcome := RunStoreChange(env, step.action);
        case AcceptAdmin(_) =>
          outcome := RunStoreChange(env, step.action);
        case TransferTokens(_, _, _, _) =>
          outcome := RunTokenProgram(env, step.action);
        case BurnTokens(_, _, _) =>
          outcome := RunTokenProgram(env, step.action);
        case OpenAccount(_, _) =>
          outcome := RunTokenProgram(env, step.action);
        case _ =>
          var elsewhere := DoElsewhere(env, chain, step.action);
          chain := elsewhere.after;
          outcome := elsewhere.outcome;
      }
    }
  }
}
