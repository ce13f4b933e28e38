/** Configuration over whole runs: what is in force is what somebody entitled to wrote last, and that is what the
    traffic obeys. */
module Configuration {
  import opened Primitives
  import opened Fees
  import opened Accounts
  import opened Bridge
  import opened Invariants
  import opened Effects
  import opened NetFlow
  import SendInstruction
  import LzReceiveInstruction
  import SetPeerConfig
  import StoreConfig

  // ---- Settings ----------------------------------------------------------------------------------------------------

  datatype Setting =
    | AddressOf(eid: U32)
    | FeeOf(eid: U32)
    | OptionsOf(eid: U32, composed: bool)
    | HasPeer(eid: U32)
    | HasLimiter(eid: U32, direction: Direction)
    | DefaultFee
    | AdminKey
    | Nominee
    | PauseFlag
    | Pauser
    | Unpauser
    | Developer
    | DeveloperFlag

  datatype Value =
    | Address(address: Bytes32)
    | Fee(bps: Option<U16>)
    | Options(options: Bytes)
    | Role(holder: Option<Pubkey>)
    | Flag(on: bool)

  function InForce(s: Chain, f: Setting): Value {
    match f
    case AddressOf(eid) => Address(PeerOrDefault(s, eid).peerAddress)
    case FeeOf(eid) => Fee(PeerOrDefault(s, eid).feeBps)
    case OptionsOf(eid, composed) =>
      Options(if composed then PeerOrDefault(s, eid).enforcedSendAndCall else PeerOrDefault(s, eid).enforcedSend)
    case HasPeer(eid) => Flag(eid in s.peers)
    case HasLimiter(eid, d) => Flag(LimiterIn(s.peers, eid, d).Some?)
    case DefaultFee => Fee(Some(s.store.defaultFeeBps))
    case AdminKey => Role(Some(s.store.admin))
    case Nominee => Role(s.store.pendingAdmin)
    case PauseFlag => Flag(s.store.paused)
    case Pauser => Role(s.store.pauser)
    case Unpauser => Role(s.store.unpauser)
    case Developer => Role(Some(s.store.developer))
    case DeveloperFlag => Flag(s.store.developerEnabled)
  }

  /** The settings right after a Native `init_oft`. */
  function Initially(s: Store, f: Setting): Value {
    match f
    case AddressOf(_) => Address(ZERO32)
    case FeeOf(_) => Fee(None)
    case OptionsOf(_, _) => Options([])
    case HasPeer(_) => Flag(false)
    case HasLimiter(_, _) => Flag(false)
    case DefaultFee => Fee(Some(0))
    case AdminKey => Role(Some(s.admin))
    case Nominee => Role(None)
    case PauseFlag => Flag(false)
    case Pauser => Role(None)
    case Unpauser => Role(None)
    case Developer => Role(Some(s.developer))
    case DeveloperFlag => Flag(s.developerEnabled)
  }

  /** What a successful action writes to a setting, if anything: configuring a peer creates it, any limits at all
      install a limiter, removing the developer disables the role, accepting the nomination ends it. */
  function Writing(action: Action, f: Setting): Option<Value> {
    match action
    case ConfigurePeer(_, eid, OutboundRateLimit(limits)) =>
      if f == HasLimiter(eid, Outbound) then Some(Flag(limits.Some?)) else CreatingPeer(eid, f)
    case ConfigurePeer(_, eid, InboundRateLimit(limits)) =>
      if f == HasLimiter(eid, Inbound) then Some(Flag(limits.Some?)) else CreatingPeer(eid, f)
    case ConfigurePeer(_, eid, PeerAddress(address)) => if f == AddressOf(eid) then Some(Address(address)) else CreatingPeer(eid, f)
    case ConfigurePeer(_, eid, FeeBps(bps)) => if f == FeeOf(eid) then Some(Fee(bps)) else CreatingPeer(eid, f)
    case ConfigurePeer(_, eid, EnforcedOptions(send, _, sendAndCall, _)) =>
      if f == OptionsOf(eid, false) then Some(Options(send))
      else if f == OptionsOf(eid, true) then Some(Options(sendAndCall))
      else CreatingPeer(eid, f)
    case ConfigureStore(_, Admin(nominee)) => if f == Nominee then Some(Role(Some(nominee))) else None
    case AcceptAdmin(nominee) =>
      if f == AdminKey then Some(Role(Some(nominee))) else if f == Nominee then Some(Role(None)) else None
    case ConfigureStore(_, DefaultFee(bps)) => if f == DefaultFee then Some(Fee(Some(bps))) else None
    case ConfigureStore(_, Paused(paused)) => if f == PauseFlag then Some(Flag(paused)) else None
    case ConfigureStore(_, Pauser(pauser)) => if f == Pauser then Some(Role(pauser)) else None
    case ConfigureStore(_, Unpauser(unpauser)) => if f == Unpauser then Some(Role(unpauser)) else None
    case ConfigureStore(_, Developer(developer)) =>
      if f == Developer then Some(Role(Some(developer)))
      else if f == DeveloperFlag && developer == ZERO32 then Some(Flag(false))
      else None
    case ConfigureStore(_, DeveloperEnabled(enabled)) => if f == DeveloperFlag then Some(Flag(enabled)) else None
    case Pause(_, paused) => if f == PauseFlag then Some(Flag(paused)) else None
    case _ => None
  }

  function CreatingPeer(eid: U32, f: Setting): Option<Value> {
    if f == HasPeer(eid) then Some(Flag(true)) else None
  }

  predicate Configures(action: Action) {
    action.ConfigurePeer? || action.ConfigureStore? || action.Pause? || action.AcceptAdmin?
  }

  /** Peers belong to the admin and the enabled developer, the store to the admin, the pause to the pauser and the
      unpauser, for whom the admin stands in, and a nomination to the nominee. */
  predicate Entitled(s: Store, action: Action) {
    match action
    case ConfigurePeer(authority, _, _) => authority == s.admin || (s.developerEnabled && authority == s.developer)
    case ConfigureStore(signer, _) => signer == s.admin
    case Pause(signer, true) => signer == s.pauser.GetOr(s.admin)
    case Pause(signer, false) => signer == s.unpauser.GetOr(s.admin)
    case AcceptAdmin(nominee) => s.pendingAdmin == Some(nominee)
    case _ => false
  }

  /** Fees stay below 100 %, option strings parse and the endpoint takes the delegate. */
  predicate Acceptable(action: Action) {
    match action
    case ConfigurePeer(_, _, FeeBps(bps)) => bps.Some? ==> bps.value < 10000
    case ConfigurePeer(_, _, EnforcedOptions(_, sendAccepted, _, sendAndCallAccepted)) => sendAccepted && sendAndCallAccepted
    case ConfigureStore(_, DefaultFee(bps)) => bps < 10000
    case ConfigureStore(_, Delegate(_, accepted)) => accepted
    case _ => true
  }

  /** How a configuration step is answered: the signer is judged before the value. */
  function Answer(s: Store, action: Action): Outcome {
    if !Entitled(s, action) then Rejected(Unauthorized)
    else if Acceptable(action) then Configured
    else if action.ConfigurePeer? && action.peerChange.FeeBps? then Rejected(InvalidFee)
    else if action.ConfigureStore? && action.storeChange.DefaultFee? then Rejected(InvalidFee)
    else Rejected(Error.Endpoint)
  }

  // ---- The last write is in force ------------------------------------------------------------------------------------

  predicate Writes(s: Store, action: Action, f: Setting) {
    Writing(action, f).Some? && Entitled(s, action) && Acceptable(action)
  }

  /** The action is answered as it should be, and wrote the setting if and only if it had something to write, its
      signer was entitled to and the value acceptable; otherwise the setting is as before. */
  ghost predicate Explained(s: Chain, action: Action, t: Transition, f: Setting) {
    && (Configures(action) ==> t.outcome == Answer(s.store, action))
    && InForce(t.after, f) == if Writes(s.store, action, f) then Writing(action, f).value else InForce(s, f)
  }

  lemma ConfigureLimitsWrites(s: Chain, authority: Pubkey, eid: U32, change: SetPeerConfig.PeerChange, f: Setting)
    requires change.OutboundRateLimit? || change.InboundRateLimit?
    ensures Explained(s, ConfigurePeer(authority, eid, change), DoConfigurePeer(s, authority, eid, change), f)
  {
  }

  lemma ConfigureOptionsWrites(s: Chain, authority: Pubkey, eid: U32, change: SetPeerConfig.PeerChange, f: Setting)
    requires change.EnforcedOptions?
    ensures Explained(s, ConfigurePeer(authority, eid, change), DoConfigurePeer(s, authority, eid, change), f)
  {
  }

  lemma ConfigureFeeWrites(s: Chain, authority: Pubkey, eid: U32, change: SetPeerConfig.PeerChange, f: Setting)
    requires change.FeeBps?
    ensures Explained(s, ConfigurePeer(authority, eid, change), DoConfigurePeer(s, authority, eid, change), f)
  {
  }

  lemma ConfigureAddressWrites(s: Chain, authority: Pubkey, eid: U32, change: SetPeerConfig.PeerChange, f: Setting)
    requires change.PeerAddress?
    ensures Explained(s, ConfigurePeer(authority, eid, change), DoConfigurePeer(s, authority, eid, change), f)
  {
  }

  lemma ConfigurePeerWrites(s: Chain, authority: Pubkey, eid: U32, change: SetPeerConfig.PeerChange, f: Setting)
    ensures Explained(s, ConfigurePeer(authority, eid, change), DoConfigurePeer(s, authority, eid, change), f)
  {
    match change {
      case PeerAddress(_) => ConfigureAddressWrites(s, authority, eid, change, f);
      case FeeBps(_) => ConfigureFeeWrites(s, authority, eid, change, f);
      case EnforcedOptions(_, _, _, _) => ConfigureOptionsWrites(s, authority, eid, change, f);
      case OutboundRateLimit(_) => ConfigureLimitsWrites(s, authority, eid, change, f);
      case InboundRateLimit(_) => ConfigureLimitsWrites(s, authority, eid, change, f);
    }
  }

  lemma ConfigureStoreWrites(s: Chain, signer: Pubkey, change: StoreConfig.StoreChange, f: Setting)
    ensures Explained(s, ConfigureStore(signer, change), WriteStore(s, StoreConfig.SetConfig(s.store, signer, change)), f)
  {
  }

  lemma PauseWrites(s: Chain, signer: Pubkey, paused: bool, f: Setting)
    ensures Explained(s, Pause(signer, paused), WriteStore(s, StoreConfig.SetPause(s.store, signer, paused)), f)
  {
  }

  lemma AcceptWrites(s: Chain, nominee: Pubkey, f: Setting)
    ensures Explained(s, AcceptAdmin(nominee), WriteStore(s, StoreConfig.AcceptAdmin(s.store, nominee)), f)
  {
  }

  lemma SendWritesNothing(env: Env, s: Chain, accts: SendInstruction.SendAccounts, params: SendInstruction.SendParams, f: Setting)
    ensures InForce(DoSend(env, s, accts, params).after, f) == InForce(s, f)
  {
  }

  lemma ReceiveWritesNothing(env: Env, s: Chain, accts: LzReceiveInstruction.ReceiveAccounts,
                             params: LzReceiveInstruction.ReceiveParams, f: Setting)
    ensures InForce(DoReceive(env, s, accts, params).after, f) == InForce(s, f)
  {
  }

  lemma OthersWriteNothing(env: Env, s: Chain, action: Action, f: Setting)
    requires !Configures(action) && !action.Send? && !action.LzReceive?
    ensures InForce(Act(env, s, action).after, f) == InForce(s, f)
  {
  }

  lemma ActWrites(env: Env, s: Chain, action: Action, f: Setting)
    ensures Explained(s, action, Act(env, s, action), f)
  {
    match action {
      case ConfigurePeer(authority, eid, change) => ConfigurePeerWrites(s, authority, eid, change, f);
      case ConfigureStore(signer, change) => ConfigureStoreWrites(s, signer, change, f);
      case Pause(signer, paused) => PauseWrites(s, signer, paused, f);
      case AcceptAdmin(nominee) => AcceptWrites(s, nominee, f);
      case Send(accts, params) => SendWritesNothing(env, s, accts, params, f);
      case LzReceive(accts, params) => ReceiveWritesNothing(env, s, accts, params, f);
      case _ => OthersWriteNothing(env, s, action, f);
    }
  }

  predicate WritesAt(run: Run, k: nat, f: Setting) {
    k < |run.steps| && Writes(run.states[k].store, run.steps[k].action, f)
  }

  /** The last of the first `n` steps that wrote the setting. */
  function LastWrite(run: Run, f: Setting, n: nat): (j: Option<nat>)
    requires n <= |run.steps|
    ensures j.Some? ==> j.value < n && WritesAt(run, j.value, f)
    ensures forall k: nat | (if j.Some? then j.value < k else true) && k < n :: !WritesAt(run, k, f)
  {
    if n == 0 then None else if WritesAt(run, n - 1, f) then Some(n - 1) else LastWrite(run, f, n - 1)
  }

  /** The value that the first `n` steps leave in a setting. */
  function LastWritten(run: Run, f: Setting, n: nat): Value
    requires n <= |run.steps|
  {
    var j := LastWrite(run, f, n);
    if j.Some? then Writing(run.steps[j.value].action, f).value else Initially(run.states[0].store, f)
  }

  /** Every configuration step is answered by its signer and its value alone. */
  lemma RunAnswers(run: Run, k: nat)
    requires k < |run.steps| && Configures(run.steps[k].action)
    ensures run.outcomes[k] == Answer(run.states[k].store, run.steps[k].action)
  {
    var step := StepAt(run, k);
    ActWrites(run.env, run.states[k].(clock := step.at), step.action, PauseFlag);
  }

  lemma OthersConfigureNothing(run: Run, k: nat)
    requires k < |run.steps| && !Configures(run.steps[k].action)
    ensures forall f :: Writing(run.steps[k].action, f).None?
  {
  }

  lemma RunWrites(run: Run, k: nat, f: Setting)
    requires k < |run.steps|
    ensures WritesAt(run, k, f) <==> run.outcomes[k].Configured? && Writing(run.steps[k].action, f).Some?
    ensures InForce(run.states[k + 1], f)
         == if WritesAt(run, k, f) then Writing(run.steps[k].action, f).value else InForce(run.states[k], f)
  {
    var step := StepAt(run, k);
    ActWrites(run.env, run.states[k].(clock := step.at), step.action, f);
    if Configures(step.action) { RunAnswers(run, k); } else { OthersConfigureNothing(run, k); }
  }

  /** In every history each setting in force is the one that somebody entitled to wrote last, or the initial one. */
  lemma {:induction false} LastWriteIsInForce(run: History, f: Setting, n: nat)
    requires n <= |run.steps|
    ensures InForce(run.states[n], f) == LastWritten(run, f, n)
  {
    if n > 0 {
      LastWriteIsInForce(run, f, n - 1);
      RunWrites(run, n - 1, f);
    }
  }

  // ---- What the traffic obeys ------------------------------------------------------------------------------------------

  /** The fee of a peer by the history alone: its last override, or the last default while there is none. */
  function FeeByHistory(run: Run, eid: U32, n: nat): U16
    requires n <= |run.steps|
  {
    match LastWritten(run, FeeOf(eid), n)
    case Fee(Some(bps)) => bps
    case _ => (match LastWritten(run, DefaultFee, n) case Fee(Some(bps)) => bps case _ => 0)
  }

  /** A successful send in terms of the settings in force. */
  lemma SendObeysForce(env: Env, s: Chain, action: Action)
    requires s.store.oftType.Native? && Act(env, s, action).outcome.Sent?
    ensures action.Send?
    ensures var sent, params := Act(env, s, action).outcome.sent, action.sendParams;
            && Act(env, s, action).outcome.dstEid == params.dstEid
            && Ok(sent.amounts) == NativeAmounts(s.store.ld2sdRate, params.amountLd,
                                     BasisPointsInForce(s.store.defaultFeeBps, PeerOrDefault(s, params.dstEid).feeBps))
            && Address(sent.packet.receiver) == InForce(s, AddressOf(params.dstEid))
            && InForce(s, PauseFlag) == Flag(false)
            && Some(sent.options) == env.combineOptions(InForce(s, OptionsOf(params.dstEid, params.composeMsg.Some?)).options,
                                                        params.options)
  {
  }

  lemma HistorySendObeysForce(run: History, k: nat)
    requires k < |run.steps| && run.outcomes[k].Sent?
    ensures run.steps[k].action.Send?
    ensures var sent, params, s := run.outcomes[k].sent, run.steps[k].action.sendParams, run.states[k];
            && run.outcomes[k].dstEid == params.dstEid
            && Ok(sent.amounts) == NativeAmounts(run.states[0].store.ld2sdRate, params.amountLd,
                                     BasisPointsInForce(s.store.defaultFeeBps, PeerOrDefault(s, params.dstEid).feeBps))
            && Address(sent.packet.receiver) == InForce(s, AddressOf(params.dstEid))
            && InForce(s, PauseFlag) == Flag(false)
            && Some(sent.options) == run.env.combineOptions(
                                       InForce(s, OptionsOf(params.dstEid, params.composeMsg.Some?)).options, params.options)
  {
    HistoryIsSane(run, k);
    SendObeysForce(run.env, run.states[k].(clock := StepAt(run, k).at), StepAt(run, k).action);
  }

  lemma FeeAsWritten(run: History, eid: U32, n: nat)
    requires n <= |run.steps|
    ensures FeeByHistory(run, eid, n)
         == BasisPointsInForce(run.states[n].store.defaultFeeBps, PeerOrDefault(run.states[n], eid).feeBps)
  {
    LastWriteIsInForce(run, FeeOf(eid), n);
    LastWriteIsInForce(run, DefaultFee, n);
  }

  /** A send is charged the fee that was written last for its destination, goes to the address that was written
      last, carries the options that were written last for its kind, and is not made while the last write of the
      pause flag is a pause. */
  lemma SendObeysLastWrites(run: History, k: nat)
    requires k < |run.steps| && run.outcomes[k].Sent?
    ensures run.steps[k].action.Send?
    ensures var sent, params := run.outcomes[k].sent, run.steps[k].action.sendParams;
            var options := LastWritten(run, OptionsOf(params.dstEid, params.composeMsg.Some?), k);
            && Ok(sent.amounts) == NativeAmounts(run.states[0].store.ld2sdRate, params.amountLd, FeeByHistory(run, params.dstEid, k))
            && Address(sent.packet.receiver) == LastWritten(run, AddressOf(params.dstEid), k)
            && LastWritten(run, PauseFlag, k) == Flag(false)
            && options.Options? && Some(sent.options) == run.env.combineOptions(options.options, params.options)
  {
    HistorySendObeysForce(run, k);
    var eid, composed := run.steps[k].action.sendParams.dstEid, run.steps[k].action.sendParams.composeMsg.Some?;
    FeeAsWritten(run, eid, k);
    LastWriteIsInForce(run, AddressOf(eid), k);
    LastWriteIsInForce(run, PauseFlag, k);
    LastWriteIsInForce(run, OptionsOf(eid, composed), k);
  }

  /** A delivery in terms of the settings in force. */
  lemma ReceiveObeysForce(env: Env, s: Chain, accts: LzReceiveInstruction.ReceiveAccounts,
                          params: LzReceiveInstruction.ReceiveParams)
    ensures var o := DoReceive(env, s, accts, params).outcome;
            && (params.srcEid in s.peers ==>
                  (Address(params.sender) != InForce(s, AddressOf(params.srcEid)) <==> o == Rejected(InvalidSender)))
            && (o.Received? ==>
                  && o.received.packet == LzReceiveInstruction.ClearedPacket(env, params)
                  && Address(params.sender) == InForce(s, AddressOf(params.srcEid))
                  && InForce(s, PauseFlag) == Flag(false))
  {
    if params.srcEid in s.peers && s.peers[params.srcEid].peerAddress == params.sender {
      NotAboutSender(env, s, accts, params);
    }
  }

  lemma NotAboutSender(env: Env, s: Chain, accts: LzReceiveInstruction.ReceiveAccounts, params: LzReceiveInstruction.ReceiveParams)
    requires params.srcEid in s.peers && s.peers[params.srcEid].peerAddress == params.sender
    ensures DoReceive(env, s, accts, params).outcome != Rejected(InvalidSender)
  {
  }

  /** A delivery to a peer that exists is refused as InvalidSender if and only if its sender is not the address
      written last; what is received comes from an address that somebody entitled to has written. */
  lemma ReceiveObeysLastWrites(run: History, k: nat)
    requires k < |run.steps| && run.steps[k].action.LzReceive?
    ensures var params, o := run.steps[k].action.receiveParams, run.outcomes[k];
            var written := LastWritten(run, AddressOf(params.srcEid), k);
            && (params.srcEid in run.states[k].peers ==>
                  (Address(params.sender) != written <==> o == Rejected(InvalidSender)))
            && (o.Received? ==>
                  && Address(o.received.packet.sender) == written && LastWrite(run, AddressOf(params.srcEid), k).Some?
                  && LastWritten(run, PauseFlag, k) == Flag(false))
  {
    var step := StepAt(run, k);
    var params := step.action.receiveParams;
    var s := run.states[k].(clock := step.at);
    HistoryIsSane(run, k);
    TimeKeepsSane(run.env, run.states[k], step.at);
    ReceiveObeysForce(run.env, s, step.action.receiveAccounts, params);
    if run.outcomes[k].Received? { ReceivedAmounts(run.env, s, step.action.receiveAccounts, params); }
    LastWriteIsInForce(run, AddressOf(params.srcEid), k);
    LastWriteIsInForce(run, PauseFlag, k);
  }

  /** Who the history makes admin at state n. */
  predicate AdminByHistory(run: Run, n: nat, key: Pubkey)
    requires n <= |run.steps|
  {
    LastWritten(run, AdminKey, n) == Role(Some(key))
  }

  /** Whether the last write of a role appoints this key, or nobody, when the admin stands in. */
  predicate HoldsByHistory(run: Run, n: nat, role: Setting, key: Pubkey)
    requires n <= |run.steps|
  {
    match LastWritten(run, role, n)
    case Role(Some(holder)) => key == holder
    case Role(None) => AdminByHistory(run, n, key)
    case _ => false
  }

  lemma AdminAsWritten(run: History, n: nat, key: Pubkey)
    requires n <= |run.steps|
    ensures AdminByHistory(run, n, key) <==> key == run.states[n].store.admin
  {
    LastWriteIsInForce(run, AdminKey, n);
  }

  lemma PauserAsWritten(run: History, n: nat, paused: bool, key: Pubkey)
    requires n <= |run.steps|
    ensures var s := run.states[n].store;
            HoldsByHistory(run, n, if paused then Pauser else Unpauser, key)
            <==> key == (if paused then s.pauser else s.unpauser).GetOr(s.admin)
  {
    LastWriteIsInForce(run, if paused then Pauser else Unpauser, n);
    AdminAsWritten(run, n, key);
  }

  /** Whether the signer is entitled, by what the history has written: to the pause the holder written last or
      else the admin, to peers the admin or the developer written last while the flag written last enables the
      role, to the store the admin, to an acceptance the nominee written last. */
  predicate EntitledByHistory(run: Run, n: nat, action: Action)
    requires n <= |run.steps|
  {
    match action
    case Pause(signer, paused) => HoldsByHistory(run, n, if paused then Pauser else Unpauser, signer)
    case ConfigurePeer(authority, _, _) =>
      || AdminByHistory(run, n, authority)
      || (LastWritten(run, Developer, n) == Role(Some(authority)) && LastWritten(run, DeveloperFlag, n) == Flag(true))
    case ConfigureStore(signer, _) => AdminByHistory(run, n, signer)
    case AcceptAdmin(nominee) => LastWritten(run, Nominee, n) == Role(Some(nominee))
    case _ => false
  }

  lemma EntitledAsWritten(run: History, n: nat, action: Action)
    requires n <= |run.steps| && Configures(action)
    ensures EntitledByHistory(run, n, action) <==> Entitled(run.states[n].store, action)
  {
    match action {
      case Pause(signer, paused) => PauserAsWritten(run, n, paused, signer);
      case ConfigurePeer(authority, _, _) =>
        AdminAsWritten(run, n, authority);
        LastWriteIsInForce(run, Developer, n);
        LastWriteIsInForce(run, DeveloperFlag, n);
      case ConfigureStore(signer, _) => AdminAsWritten(run, n, signer);
      case AcceptAdmin(nominee) => LastWriteIsInForce(run, Nominee, n);
    }
  }

  /** A configuration step is refused as Unauthorized if and only if the history does not entitle its signer, and
      otherwise succeeds if and only if its value is acceptable. */
  lemma SignersByLastWrites(run: History, k: nat)
    requires k < |run.steps| && Configures(run.steps[k].action)
    ensures run.outcomes[k] == Rejected(Unauthorized) <==> !EntitledByHistory(run, k, run.steps[k].action)
    ensures run.outcomes[k].Configured? <==>
              EntitledByHistory(run, k, run.steps[k].action) && Acceptable(run.steps[k].action)
  {
    RunAnswers(run, k);
    EntitledAsWritten(run, k, run.steps[k].action);
  }
}
