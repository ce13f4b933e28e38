/** The bridge as a state machine: the program's instructions, the token program's own users, and the other
    chains of the mesh. `Next` is one step over values; `Bank` runs a step the way the runtime does. */
module Bridge {
  import opened Primitives
  import opened RateLimiters
  import opened Fees
  import opened Accounts
  import MsgCodec
  import SendInstruction
  import LzReceiveInstruction
  import SetPeerConfig
  import StoreConfig
  import WithdrawFee

  /** Everything the bridge can observe. `others` is the supply on all other chains, in local decimals and
      unbounded; `clock` is the timestamp of the last step. */
  datatype Chain = Chain(
    store: Store,
    peers: map<U32, Peer>,
    ledger: Ledger,
    mailbox: Mailbox,
    others: int,
    clock: I64)

  datatype Action =
    | Send(sendAccounts: SendInstruction.SendAccounts, sendParams: SendInstruction.SendParams)
    | LzReceive(receiveAccounts: LzReceiveInstruction.ReceiveAccounts, receiveParams: LzReceiveInstruction.ReceiveParams)
    | Withdraw(withdrawAccounts: WithdrawFee.WithdrawAccounts, feeLd: U64)
    | ConfigurePeer(authority: Pubkey, remoteEid: U32, peerChange: SetPeerConfig.PeerChange)
    | ConfigureStore(configSigner: Pubkey, storeChange: StoreConfig.StoreChange)
    | Pause(pauseSigner: Pubkey, paused: bool)
    | AcceptAdmin(nominee: Pubkey)
      // holders using the token program directly
    | TransferTokens(owner: Pubkey, from: Pubkey, to: Pubkey, amount: U64)
    | BurnTokens(owner: Pubkey, from: Pubkey, amount: U64)
    | OpenAccount(key: Pubkey, owner: Pubkey)
      // the other chains: a member sends or receives, or a stranger addresses a packet here
    | MemberSend(packet: Packet)
    | MemberReceive(packet: Packet)
    | StrangerSend(packet: Packet)

  datatype Step = Step(at: I64, action: Action)

  datatype Outcome =
    | Rejected(error: Error)
    | Configured
    | Sent(dstEid: U32, sent: SendInstruction.SendReceipt)
    | Received(received: LzReceiveInstruction.Receipt, dest: Pubkey)
    | Withdrawn(amount: U64, dest: Pubkey)
    | Transferred(from: Pubkey, to: Pubkey, amount: U64)
    | Burned(amount: U64)
    | Opened
    | MemberSent(packet: Packet)
    | MemberReceived(packet: Packet)
    | StrangerSent(packet: Packet)

  datatype Transition = Transition(after: Chain, outcome: Outcome)

  // ---- Packets and their worth -----------------------------------------------------------------------------

  /** A packet stands for tokens when a member of the mesh sent it. */
  predicate Backed(env: Env, p: Packet) {
    p.srcEid in env.mesh && env.mesh[p.srcEid] == p.sender
  }

  function Worth(rate: Rate, p: Packet): int {
    rate * MsgCodec.AmountSd(p.message)
  }

  // ---- One step ----------------------------------------------------------------------------------------------

  function DoSend(env: Env, s: Chain, accts: SendInstruction.SendAccounts, params: SendInstruction.SendParams): Transition {
    if params.dstEid !in s.peers then Transition(s, Rejected(AccountConstraint))
    else
      var effect := SendInstruction.Send(env, s.store, s.peers[params.dstEid], s.ledger, s.mailbox, accts, params,
                                         Seconds(s.clock));
      match effect
      case Err(e) => Transition(s, Rejected(e))
      case Ok(v) =>
        Transition(s.(peers := s.peers[params.dstEid := v.peer], ledger := v.ledger, mailbox := v.mailbox),
                   Sent(params.dstEid, v.receipt))
  }

  function DoReceive(env: Env, s: Chain, accts: LzReceiveInstruction.ReceiveAccounts,
                     params: LzReceiveInstruction.ReceiveParams): Transition
  {
    if params.srcEid !in s.peers then Transition(s, Rejected(AccountConstraint))
    else
      var effect := LzReceiveInstruction.Receive(env, s.store, s.peers[params.srcEid], s.ledger, s.mailbox, accts, params,
                                                 Seconds(s.clock));
      match effect
      case Err(e) => Transition(s, Rejected(e))
      case Ok(v) =>
        Transition(s.(peers := s.peers[params.srcEid := v.peer], ledger := v.ledger, mailbox := v.mailbox),
                   Received(v.receipt, accts.tokenDest))
  }

  function PeerOrDefault(s: Chain, eid: U32): Peer {
    if eid in s.peers then s.peers[eid] else DEFAULT_PEER
  }

  function DoConfigurePeer(s: Chain, authority: Pubkey, eid: U32, change: SetPeerConfig.PeerChange): Transition {
    match SetPeerConfig.Configure(s.store, PeerOrDefault(s, eid), authority, change, Seconds(s.clock))
    case Err(e) => Transition(s, Rejected(e))
    case Ok(peer) => Transition(s.(peers := s.peers[eid := peer]), Configured)
  }

  function WriteStore(s: Chain, result: Result<Store>): Transition {
    match result
    case Err(e) => Transition(s, Rejected(e))
    case Ok(store) => Transition(s.(store := store), Configured)
  }

  function WriteLedger(s: Chain, result: Result<Ledger>, outcome: Outcome): Transition {
    match result
    case Err(e) => Transition(s, Rejected(e))
    case Ok(ledger) => Transition(s.(ledger := ledger), outcome)
  }

  /** The endpoint authenticates senders; a member that sends burns what its packet is worth, and a member
      accepts only packets addressed to it that members sent. */
  function DoElsewhere(env: Env, s: Chain, action: Action): Transition
    requires action.MemberSend? || action.MemberReceive? || action.StrangerSend?
  {
    var p := action.packet;
    var worth := Worth(s.store.ld2sdRate, p);
    match action
    case MemberSend(_) =>
      if !Backed(env, p) || p.srcEid == env.localEid || s.others < worth then Transition(s, Rejected(Error.Endpoint))
      else Transition(s.(mailbox := s.mailbox.(inFlight := s.mailbox.inFlight + multiset{p}), others := s.others - worth),
                      MemberSent(p))
    case MemberReceive(_) =>
      if !Backed(env, p) || p.dstEid == env.localEid || p.dstEid !in env.mesh || env.mesh[p.dstEid] != p.receiver
         || p !in s.mailbox.inFlight
      then Transition(s, Rejected(Error.Endpoint))
      else Transition(s.(mailbox := s.mailbox.(inFlight := s.mailbox.inFlight - multiset{p}), others := s.others + worth),
                      MemberReceived(p))
    case StrangerSend(_) =>
      if Backed(env, p) || p.sender == ZERO32 then Transition(s, Rejected(Error.Endpoint))
      else Transition(s.(mailbox := s.mailbox.(inFlight := s.mailbox.inFlight + multiset{p})), StrangerSent(p))
  }

  function Act(env: Env, s: Chain, action: Action): Transition {
    match action
    case Send(accts, params) => DoSend(env, s, accts, params)
    case LzReceive(accts, params) => DoReceive(env, s, accts, params)
    case Withdraw(accts, feeLd) =>
      WriteLedger(s, WithdrawFee.Withdraw(env, s.store, s.ledger, accts, feeLd), Withdrawn(feeLd, accts.tokenDest))
    case ConfigurePeer(authority, eid, change) => DoConfigurePeer(s, authority, eid, change)
    case ConfigureStore(signer, change) => WriteStore(s, StoreConfig.SetConfig(s.store, signer, change))
    case Pause(signer, paused) => WriteStore(s, StoreConfig.SetPause(s.store, signer, paused))
    case AcceptAdmin(nominee) => WriteStore(s, StoreConfig.AcceptAdmin(s.store, nominee))
    case TransferTokens(owner, from, to, amount) =>
      WriteLedger(s, s.ledger.Transfer(from, to, owner, amount), Transferred(from, to, amount))
    case BurnTokens(owner, from, amount) => WriteLedger(s, s.ledger.Burn(from, owner, amount), Burned(amount))
    case OpenAccount(key, owner) => WriteLedger(s, s.ledger.OpenIfNeeded(key, owner), Opened)
    case MemberSend(_) => DoElsewhere(env, s, action)
    case MemberReceive(_) => DoElsewhere(env, s, action)
    case StrangerSend(_) => DoElsewhere(env, s, action)
  }

  /** The clock moves to the step's timestamp; a rejected step changes nothing else. */
  function Next(env: Env, s: Chain, step: Step): Transition {
    Act(env, s.(clock := step.at), step.action)
  }

  // ---- Runs --------------------------------------------------------------------------------------------------

  /** Assumptions about the surroundings: the store's address never signs a transaction itself, and only
      members of the mesh are registered as peers; a peer may be cleared with the zero address. */
  predicate Assumed(env: Env, action: Action) {
    match action
    case Send(accts, _) => accts.signer != env.storeKey
    case TransferTokens(owner, _, _, _) => owner != env.storeKey
    case BurnTokens(owner, _, _) => owner != env.storeKey
    case ConfigurePeer(_, eid, change) =>
      change.PeerAddress? && change.address != ZERO32 ==> eid in env.mesh && env.mesh[eid] == change.address
    case _ => true
  }

  /** This store is its chain's member of the mesh, and no member has the zero address. */
  ghost predicate WellFormed(env: Env) {
    && env.localEid in env.mesh && env.mesh[env.localEid] == env.storeKey
    && forall eid | eid in env.mesh :: env.mesh[eid] != ZERO32
  }

  /** A finite run in some surroundings: the states, one more than the steps, and what came of each step. */
  datatype Trace = Trace(env: Env, states: seq<Chain>, steps: seq<Step>, outcomes: seq<Outcome>)

  /** Step i of a trace. Naming it is what brings in the relation between the states around it. */
  function StepAt(t: Trace, i: nat): Step
    requires i < |t.steps|
  {
    t.steps[i]
  }

  /** Every state follows from the one before, on a clock that does not go back. */
  ghost predicate IsRun(t: Trace) {
    && WellFormed(t.env)
    && |t.states| == |t.steps| + 1 && |t.outcomes| == |t.steps|
    && forall i: nat {:trigger StepAt(t, i)} | i < |t.steps| ::
         && t.states[i].clock <= StepAt(t, i).at
         && Assumed(t.env, StepAt(t, i).action)
         && Transition(t.states[i + 1], t.outcomes[i]) == Next(t.env, t.states[i], StepAt(t, i))
  }

  type Run = t: Trace | IsRun(t) ghost witness StillRun()

  /** A run of no steps. */
  ghost function StillRun(): (t: Trace)
    ensures IsRun(t)
  {
    var key: Pubkey := ZERO32[0 := 1];
    assert key[0] != ZERO32[0];
    var env := Env(key, key, 0, map[0 := key], (owner, mint, program) => key, eid => key, key, key, key,
                   (eid, sender, nonce) => [], (to, guid, index, message) => [],
                   (enforced, extra) => Some(enforced + extra));
    var store := Store(Native, 1, key, key, key, 0, key, 0, false, None, None, None, key, true);
    var ledger := Ledger(map[], 0, None, key, None);
    Trace(env, [Chain(store, map[], ledger, Mailbox(multiset{}, multiset{}), 0, 0)], [], [])
  }

  /** Any schedule of assumed steps on a forward clock can be run from any state. */
  lemma {:induction false} RunsExist(env: Env, s: Chain, steps: seq<Step>) returns (run: Run)
    requires WellFormed(env)
    requires forall i | 0 <= i < |steps| :: s.clock <= steps[i].at && Assumed(env, steps[i].action)
    requires forall i, j | 0 <= i < j < |steps| :: steps[i].at <= steps[j].at
    ensures run.env == env && run.steps == steps && run.states[0] == s
    decreases |steps|
  {
    if steps == [] {
      run := Trace(env, [s], [], []);
    } else {
      var t := Next(env, s, steps[0]);
      ClockFollows(env, s, steps[0]);
      var rest := RunsExist(env, t.after, steps[1..]);
      run := Prepend(s, steps[0], t.outcome, rest);
    }
  }

  /** A run can be extended by a step before it. */
  lemma Prepend(s: Chain, step: Step, outcome: Outcome, rest: Run) returns (run: Run)
    requires Next(rest.env, s, step) == Transition(rest.states[0], outcome)
    requires s.clock <= step.at && Assumed(rest.env, step.action)
    ensures run == Trace(rest.env, [s] + rest.states, [step] + rest.steps, [outcome] + rest.outcomes)
  {
    var t := Trace(rest.env, [s] + rest.states, [step] + rest.steps, [outcome] + rest.outcomes);
    forall i: nat {:trigger StepAt(t, i)} | i < |t.steps|
      ensures && t.states[i].clock <= StepAt(t, i).at
              && Assumed(t.env, StepAt(t, i).action)
              && Transition(t.states[i + 1], t.outcomes[i]) == Next(t.env, t.states[i], StepAt(t, i))
    {
      if i > 0 { assert StepAt(t, i) == StepAt(rest, i - 1); }
    }
    run := t;
  }

  lemma ClockFollows(env: Env, s: Chain, step: Step)
    ensures Next(env, s, step).after.clock == step.at
  {
  }

  /** Transactions are atomic: a rejected step leaves everything but the clock as it was. */
  lemma RejectedChangesNothing(env: Env, s: Chain, step: Step)
    requires Next(env, s, step).outcome.Rejected?
    ensures Next(env, s, step).after == s.(clock := step.at)
  {
  }
}
