/** `lz_receive` (programs/paye-oft/src/instructions/lz_receive.rs): clear the packet, charge the inbound
    limiter, credit the outbound one, mint, forward the compose message. */
module LzReceiveInstruction {
  import opened Primitives
  import opened RateLimiters
  import opened Fees
  import opened Accounts
  import MsgCodec
  import ComposeMsgCodec
  import SendInstruction

  /** `Clear::MIN_ACCOUNTS_LEN` */
  const CLEAR_ACCOUNTS := 9

  /** The accounts of the instruction; `composeAccepted` is false when the endpoint refuses the compose. */
  datatype ReceiveAccounts = ReceiveAccounts(
    tokenEscrow: Pubkey, toAddress: Pubkey, tokenDest: Pubkey, mintAuthority: Option<Pubkey>,
    remaining: seq<Pubkey>, composeAccepted: bool)

  datatype ReceiveParams = ReceiveParams(srcEid: U32, sender: Bytes32, nonce: U64, guid: Bytes32, message: Bytes)

  /** What `lz_receive` did: the amount minted and the compose message forwarded, if any. */
  datatype Receipt = Receipt(packet: Packet, amountLd: U64, compose: Option<Compose>)

  datatype ReceiveEffect = ReceiveEffect(peer: Peer, ledger: Ledger, mailbox: Mailbox, receipt: Receipt)

  function ClearedPacket(env: Env, params: ReceiveParams): Packet {
    Packet(params.srcEid, params.sender, env.localEid, env.storeKey, params.nonce, params.guid, params.message)
  }

  /** The compose bytes for a received message, given the amount it mints. */
  function ComposeBytes(params: ReceiveParams, amountLd: U64): Option<Bytes> {
    match MsgCodec.ComposeMsg(params.message)
    case Some(tail) => Some(ComposeMsgCodec.Encode(params.nonce, params.srcEid, amountLd, tail))
    case None => None
  }

  datatype Forwarded = Forwarded(mailbox: Mailbox, compose: Option<Compose>)

  /** Hand the compose message, if there is one, to the endpoint. */
  function Forward(mailbox: Mailbox, accts: ReceiveAccounts, params: ReceiveParams, amountLd: U64): Result<Forwarded> {
    match ComposeBytes(params, amountLd)
    case None => Ok(Forwarded(mailbox, None))
    case Some(bytes) =>
      if !accts.composeAccepted then Err(Error.Endpoint)
      else
        var compose := Compose(accts.toAddress, params.guid, 0, bytes);
        Ok(Forwarded(mailbox.(composed := mailbox.composed + multiset{compose}), Some(compose)))
  }

  /** The account constraints, checked before the instruction body. */
  function CheckAccounts(env: Env, store: Store, peer: Peer, ledger: Ledger,
                         accts: ReceiveAccounts, params: ReceiveParams): Result<Ledger>
  {
    if peer.peerAddress != params.sender then Err(InvalidSender)
    else if accts.tokenEscrow != store.tokenEscrow || !ledger.Owns(env.storeKey, accts.tokenEscrow) then Err(AccountConstraint)
    else if accts.toAddress != MsgCodec.SendTo(params.message) then Err(InvalidTokenDest)
    else if accts.tokenDest != env.associatedAccount(accts.toAddress, store.tokenMint, ledger.tokenProgram)
    then Err(AccountConstraint)
    else
      var ready :- ledger.OpenIfNeeded(accts.tokenDest, accts.toAddress);
      if accts.mintAuthority.Some? && ledger.mintAuthority != accts.mintAuthority then Err(InvalidMintAuthority)
      else Ok(ready)
  }

  /** After the packet is cleared: limits, mint, compose. */
  function Settle(rate: Rate, peer: Peer, ledger: Ledger, mailbox: Mailbox,
                  accts: ReceiveAccounts, params: ReceiveParams, packet: Packet, now: U64): Result<ReceiveEffect>
  {
    var amountLd :- Sd2Ld(rate, MsgCodec.AmountSd(params.message));
    var limiters :- SendInstruction.Pass(peer.inbound, peer.outbound, now, amountLd);
    if accts.mintAuthority.None? then Err(InvalidMintAuthority)
    else
      var minted :- ledger.Mint(accts.tokenDest, accts.mintAuthority.value, amountLd);
      var forwarded :- Forward(mailbox, accts, params, amountLd);
      Ok(ReceiveEffect(
        peer.(inbound := limiters.spent, outbound := limiters.credited), minted, forwarded.mailbox,
        Receipt(packet, amountLd, forwarded.compose)))
  }

  function Receive(env: Env, store: Store, peer: Peer, ledger: Ledger, mailbox: Mailbox,
                   accts: ReceiveAccounts, params: ReceiveParams, now: U64): Result<ReceiveEffect>
  {
    var ready :- CheckAccounts(env, store, peer, ledger, accts, params);
    var packet := ClearedPacket(env, params);
    if |params.message| < MsgCodec.COMPOSE_MSG_OFFSET then Err(InvalidMessage)
    else if store.paused then Err(Paused)
    else if |accts.remaining| < CLEAR_ACCOUNTS then Err(Panic)
    else if packet !in mailbox.inFlight then Err(Error.Endpoint)
    else Settle(store.ld2sdRate, peer, ready, mailbox.(inFlight := mailbox.inFlight - multiset{packet}),
                accts, params, packet, now)
  }

  method CheckInPlace(env: Env, store: OftStore, peer: PeerConfig, ledger: TokenLedger,
                      accts: ReceiveAccounts, params: ReceiveParams) returns (r: Result<()>)
    modifies ledger
    ensures var checked := CheckAccounts(env, store.State(), peer.State(), old(ledger.State()), accts, params);
            && r == (if checked.Ok? then Ok(()) else Err(checked.error))
            && (checked.Ok? ==> ledger.State() == checked.value)
  {
    if peer.peerAddress != params.sender {
      return Err(InvalidSender);
    }
    if accts.tokenEscrow != store.tokenEscrow || !ledger.State().Owns(env.storeKey, accts.tokenEscrow) {
      return Err(AccountConstraint);
    }
    if accts.toAddress != MsgCodec.SendTo(params.message) {
      return Err(InvalidTokenDest);
    }
    if accts.tokenDest != env.associatedAccount(accts.toAddress, store.tokenMint, ledger.tokenProgram) {
      return Err(AccountConstraint);
    }
    r := ledger.OpenIfNeeded(accts.tokenDest, accts.toAddress);
    if r.Ok? && accts.mintAuthority.Some? && ledger.mintAuthority != accts.mintAuthority {
      return Err(InvalidMintAuthority);
    }
  }

  method ForwardInPlace(endpoint: Endpoint, accts: ReceiveAccounts, params: ReceiveParams, amountLd: U64)
    returns (r: Result<Option<Compose>>)
    modifies endpoint
    ensures var forwarded := Forward(old(endpoint.State()), accts, params, amountLd);
            && r == (if forwarded.Ok? then Ok(forwarded.value.compose) else Err(forwarded.error))
            && (forwarded.Ok? ==> endpoint.State() == forwarded.value.mailbox)
  {
    var tail := MsgCodec.ComposeMsg(params.message);
    if tail.None? {
      return Ok(None);
    }
    if !accts.composeAccepted {
      return Err(Error.Endpoint);
    }
    var bytes := ComposeMsgCodec.AppendCompose(params.nonce, params.srcEid, amountLd, tail.value);
    var compose := Compose(accts.toAddress, params.guid, 0, bytes);
    endpoint.SendCompose(compose);
    return Ok(Some(compose));
  }

  method SettleInPlace(rate: Rate, peer: PeerConfig, ledger: TokenLedger, endpoint: Endpoint, accts: ReceiveAccounts,
                       params: ReceiveParams, packet: Packet, timestamp: I64) returns (r: Result<Receipt>)
    requires peer.Valid()
    modifies peer.outbound, peer.inbound, ledger, endpoint
    ensures var effect := Settle(rate, old(peer.State()), old(ledger.State()), old(endpoint.State()),
                                 accts, params, packet, Seconds(timestamp));
            && r == (if effect.Ok? then Ok(effect.value.receipt) else Err(effect.error))
            && (effect.Ok? ==>
                  && peer.State() == effect.value.peer
                  && ledger.State() == effect.value.ledger
                  && endpoint.State() == effect.value.mailbox)
  {
    var amountSd := MsgCodec.ReadAmountSd(params.message);
    var amountLd :- Sd2Ld(rate, amountSd);
    var passed := SendInstruction.PassInPlace(peer.inbound, peer.outbound, timestamp, amountLd);
    if passed.Err? {
      return Err(passed.error);
    }
    if accts.mintAuthority.None? {
      return Err(InvalidMintAuthority);
    }
    var minted := ledger.Mint(accts.tokenDest, accts.mintAuthority.value, amountLd);
    if minted.Err? {
      return Err(minted.error);
    }
    var compose :- ForwardInPlace(endpoint, accts, params, amountLd);
    return Ok(Receipt(packet, amountLd, compose));
  }

  /** `LzReceive::apply` with its constraints, in place. As in `send`, a failed call's accounts are discarded. */
  method Apply(env: Env, store: OftStore, peer: PeerConfig, ledger: TokenLedger, endpoint: Endpoint,
               accts: ReceiveAccounts, params: ReceiveParams, timestamp: I64) returns (r: Result<Receipt>)
    requires peer.Valid()
    modifies peer.outbound, peer.inbound, ledger, endpoint
    ensures peer.Valid()
    ensures var effect := Receive(env, old(store.State()), old(peer.State()), old(ledger.State()), old(endpoint.State()),
                                  accts, params, Seconds(timestamp));
            && r == (if effect.Ok? then Ok(effect.value.receipt) else Err(effect.error))
            && (effect.Ok? ==>
                  && peer.State() == effect.value.peer
                  && ledger.State() == effect.value.ledger
                  && endpoint.State() == effect.value.mailbox)
  {
    var checked := CheckInPlace(env, store, peer, ledger, accts, params);
    if checked.Err? {
      return Err(checked.error);
    }
    if |params.message| < MsgCodec.COMPOSE_MSG_OFFSET {
      return Err(InvalidMessage);
    }
    if store.paused {
      return Err(Paused);
    }
    if |accts.remaining| < CLEAR_ACCOUNTS {
      return Err(Panic);
    }
    var packet := ClearedPacket(env, params);
    var cleared := endpoint.Clear(packet);
    if cleared.Err? {
      return Err(cleared.error);
    }
    r := SettleInPlace(store.ld2sdRate, peer, ledger, endpoint, accts, params, packet, timestamp);
  }
}
